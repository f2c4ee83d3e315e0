/**
 * `SimplerCommand::StringUtils`: the string shaping used to render error
 * messages, in the branch taken when ActiveSupport is not loaded.
 * Strings are sequences of ASCII characters; only `A`-`Z` and `a`-`z`
 * change case.
 */
module StringUtils {

  /** ASCII `upcase` of one character. */
  function Upcase(c: char): char
  {
    if 'a' <= c <= 'z' then (c as int - 32) as char else c
  }

  /** ASCII `downcase` of one character. */
  function Downcase(c: char): char
  {
    if 'A' <= c <= 'Z' then (c as int + 32) as char else c
  }

  /** `String#tr(from, to)` with a one-character source and target. */
  function Tr(s: string, from: char, to: char): (r: string)
    ensures |r| == |s|
    ensures forall i :: 0 <= i < |s| ==> r[i] == if s[i] == from then to else s[i]
  {
    if s == [] then [] else [if s[0] == from then to else s[0]] + Tr(s[1..], from, to)
  }

  /** `String#downcase`. */
  function DowncaseAll(s: string): (r: string)
    ensures |r| == |s|
    ensures forall i :: 0 <= i < |s| ==> r[i] == Downcase(s[i])
  {
    if s == [] then [] else [Downcase(s[0])] + DowncaseAll(s[1..])
  }

  /** `String#capitalize`: the first character upcased, all others downcased. */
  function Capitalize(s: string): (r: string)
    ensures |r| == |s|
    ensures forall i :: 0 <= i < |s| ==> r[i] == if i == 0 then Upcase(s[i]) else Downcase(s[i])
  {
    if s == [] then [] else [Upcase(s[0])] + DowncaseAll(s[1..])
  }

  /** The character a separator becomes before capitalisation. */
  function Unseparated(c: char): char
  {
    if c == '.' || c == '_' then ' ' else c
  }

  /**
   * `humanize`, fallback branch: `.` becomes `_`, then `_` becomes a space,
   * then `capitalize`.
   */
  function Humanize(s: string): (r: string)
    ensures |r| == |s|
    ensures forall i :: 0 <= i < |s| ==>
      r[i] == if i == 0 then Upcase(Unseparated(s[i])) else Downcase(Unseparated(s[i]))
    ensures forall i :: 0 <= i < |r| ==> r[i] != '_' && r[i] != '.'
  {
    Capitalize(Tr(Tr(s, '.', '_'), '_', ' '))
  }

  /** Humanizing a label that is already humanized changes nothing. */
  lemma {:induction false} HumanizeIdempotent(s: string)
    ensures Humanize(Humanize(s)) == Humanize(s)
  {
    var h := Humanize(s);
    var hh := Humanize(h);
    forall i | 0 <= i < |s|
      ensures hh[i] == h[i]
    {
      assert Unseparated(h[i]) == h[i];
    }
  }

  /** Humanize is determined pointwise by its contract. */
  lemma {:induction false} HumanizeIs(s: string, e: string)
    requires |e| == |s|
    requires forall i :: 0 <= i < |s| ==>
      e[i] == if i == 0 then Upcase(Unseparated(s[i])) else Downcase(Unseparated(s[i]))
    ensures Humanize(s) == e
  {
  }

  /** The example of full_messages: `foo_bar_baz` renders as `Foo bar baz`. */
  lemma {:induction false} HumanizeExample()
    ensures Humanize("foo_bar_baz") == "Foo bar baz"
  {
    HumanizeIs("foo_bar_baz", "Foo bar baz");
  }

  /** A plain key is only capitalised: `foo` renders as `Foo`. */
  lemma {:induction false} HumanizeFoo()
    ensures Humanize("foo") == "Foo"
  {
    HumanizeIs("foo", "Foo");
  }

  /** Sum of the lengths of the strings. */
  function TotalLength(xs: seq<string>): nat
  {
    if xs == [] then 0 else |xs[0]| + TotalLength(xs[1..])
  }

  /** `to_sentence`, fallback branch: `join(", ")`. */
  function ToSentence(xs: seq<string>): (r: string)
    ensures xs == [] ==> r == ""
    ensures |xs| == 1 ==> r == xs[0]
    ensures xs != [] ==> |r| == TotalLength(xs) + 2 * (|xs| - 1)
  {
    if xs == [] then ""
    else if |xs| == 1 then xs[0]
    else xs[0] + ", " + ToSentence(xs[1..])
  }

  /** Appending an element to a non-empty list appends ", " and the element. */
  lemma {:induction false} ToSentenceSnoc(xs: seq<string>, x: string)
    requires xs != []
    ensures ToSentence(xs + [x]) == ToSentence(xs) + ", " + x
  {
    if |xs| == 1 {
      assert (xs + [x])[1..] == [x];
    } else {
      assert (xs + [x])[1..] == xs[1..] + [x];
      ToSentenceSnoc(xs[1..], x);
    }
  }

  /** The first element leads the sentence, the last one ends it. */
  lemma {:induction false} ToSentenceEnds(xs: seq<string>)
    requires xs != []
    ensures |xs[0]| <= |ToSentence(xs)| && ToSentence(xs)[..|xs[0]|] == xs[0]
    ensures |xs[|xs| - 1]| <= |ToSentence(xs)|
    ensures ToSentence(xs)[|ToSentence(xs)| - |xs[|xs| - 1]|..] == xs[|xs| - 1]
  {
    if |xs| > 1 {
      ToSentenceEnds(xs[1..]);
      var rest := ToSentence(xs[1..]);
      assert ToSentence(xs) == xs[0] + ", " + rest;
      assert xs[1..][|xs[1..]| - 1] == xs[|xs| - 1];
    }
  }
}
