/**
 * `SimplerCommand::Errors`: an insertion-ordered multimap from a field key
 * to the distinct messages recorded for it.
 *
 * The pure part describes the collection as a `Table` value: the keys in
 * insertion order and the message list of each key. The class `Errors` is
 * the mutable object; its methods are specified by the functions on `Table`.
 */
module ErrorCollection {
  import opened Wrappers
  import StringUtils

  /** A hash key: a symbol such as `:base`, or a string. */
  datatype Key = Sym(name: string) | Str(name: string)

  /** The key of errors about the whole object; its messages are not prefixed. */
  const Base: Key := Sym("base")

  /**
   * The value stored under a key of a source given to `add_all`, as
   * `Array(values)` sees it: one message, a list of messages, or `nil`.
   */
  datatype Values = One(message: string) | Many(messages: seq<string>) | Nil

  /** The contents of an error collection: key order and message lists. */
  datatype Table = Table(keys: seq<Key>, msgs: map<Key, seq<string>>)

  /** A freshly created collection. */
  const Empty: Table := Table([], map[])

  predicate Distinct<T(==)>(s: seq<T>)
  {
    forall i, j :: 0 <= i < j < |s| ==> s[i] != s[j]
  }

  /**
   * What `add` keeps true: the key order lists each present key once, and
   * every present key has a non-empty list of distinct messages.
   */
  ghost predicate WellFormed(t: Table)
  {
    && Distinct(t.keys)
    && (forall k :: k in t.msgs <==> k in t.keys)
    && (forall k :: k in t.msgs ==> t.msgs[k] != [] && Distinct(t.msgs[k]))
  }

  // ---------------------------------------------------------------------
  // add

  /** The position of the first occurrence of `x` in `s`. */
  function FirstIndex(s: seq<string>, x: string): (i: nat)
    requires x in s
    ensures i < |s| && s[i] == x && x !in s[..i]
  {
    if s[0] == x then 0
    else
      var i := FirstIndex(s[1..], x);
      assert s[..i + 1] == [s[0]] + s[1..][..i];
      i + 1
  }

  /** Appending an element moves no first occurrence of the earlier elements. */
  lemma {:induction false} FirstIndexSnoc(s: seq<string>)
    requires s != []
    ensures forall x :: x in s[..|s| - 1] ==> FirstIndex(s, x) == FirstIndex(s[..|s| - 1], x)
    ensures s[|s| - 1] !in s[..|s| - 1] ==> FirstIndex(s, s[|s| - 1]) == |s| - 1
  {
    var p := s[..|s| - 1];
    forall x | x in p ensures FirstIndex(s, x) == FirstIndex(p, x) {
      assert s[FirstIndex(p, x)] == x;
    }
  }

  /**
   * `Array#uniq`: the first occurrence of every element, in order: no
   * duplicates and the same elements (the order is `UniqOrder`).
   */
  function Uniq(s: seq<string>): (r: seq<string>)
    ensures Distinct(r)
    ensures forall x :: x in r <==> x in s
  {
    if s == [] then []
    else
      var u := Uniq(s[..|s| - 1]);
      if s[|s| - 1] in u then u else u + [s[|s| - 1]]
  }

  /** `uniq` of a list with one more element: that element is kept iff it is new. */
  lemma {:induction false} UniqSnoc(l: seq<string>, y: string)
    ensures Uniq(l + [y]) == if y in Uniq(l) then Uniq(l) else Uniq(l) + [y]
  {
    assert (l + [y])[..|l|] == l;
  }

  /** `uniq` keeps the elements in the order of their first occurrences. */
  lemma {:induction false} UniqOrder(s: seq<string>)
    ensures forall i, j :: 0 <= i < j < |Uniq(s)| ==> FirstIndex(s, Uniq(s)[i]) < FirstIndex(s, Uniq(s)[j])
    decreases |s|
  {
    if s != [] {
      UniqOrder(s[..|s| - 1]);
      FirstIndexSnoc(s);
    }
  }

  /** `uniq` leaves a list without duplicates as it is. */
  lemma {:induction false} UniqOfDistinct(s: seq<string>)
    requires Distinct(s)
    ensures Uniq(s) == s
  {
    if s != [] {
      var p := s[..|s| - 1];
      UniqOfDistinct(p);
      assert s[|s| - 1] !in p;
      assert p + [s[|s| - 1]] == s;
    }
  }

  /**
   * `add(key, message)`: `self[key] ||= []`, then `self[key] << message`,
   * then `self[key].uniq!`.
   */
  function Added(t: Table, key: Key, message: string): Table
  {
    var existing := if key in t.msgs then t.msgs[key] else [];
    var keys := if key in t.msgs then t.keys else t.keys + [key];
    Table(keys, t.msgs[key := Uniq(existing + [message])])
  }

  /**
   * After `add(key, m)` the key's list contains `m` exactly once: a new
   * message goes to the end, a known one leaves the list unchanged, and a
   * new key gets `[m]` and goes to the end of the key order. Every other
   * key keeps its list.
   */
  lemma {:induction false} AddedSpec(t: Table, key: Key, m: string)
    requires WellFormed(t)
    ensures var r := Added(t, key, m);
      && key in r.msgs
      && multiset(r.msgs[key])[m] == 1
      && r.msgs[key] == (if key !in t.msgs then [m]
                         else if m in t.msgs[key] then t.msgs[key]
                         else t.msgs[key] + [m])
      && r.keys == (if key in t.msgs then t.keys else t.keys + [key])
      && (forall k :: k != key ==> (k in r.msgs <==> k in t.msgs))
      && (forall k :: k != key && k in t.msgs ==> r.msgs[k] == t.msgs[k])
  {
    AddedList(t, key, m);
    DistinctCount(Added(t, key, m).msgs[key], m);
  }

  /** The list `add(key, m)` leaves for `key`. */
  lemma {:induction false} AddedList(t: Table, key: Key, m: string)
    requires WellFormed(t)
    ensures Added(t, key, m).msgs[key] == (if key !in t.msgs then [m]
                                          else if m in t.msgs[key] then t.msgs[key]
                                          else t.msgs[key] + [m])
    ensures Distinct(Added(t, key, m).msgs[key]) && m in Added(t, key, m).msgs[key]
  {
    if key in t.msgs {
      var l := t.msgs[key];
      UniqOfDistinct(l);
      if m in l {
        assert Uniq(l + [m]) == Uniq(l) by { assert (l + [m])[..|l|] == l; }
      } else {
        assert Uniq(l + [m]) == Uniq(l) + [m] by { assert (l + [m])[..|l|] == l; }
      }
    } else {
      assert Uniq([m]) == [m] by { assert [m][..0] == []; }
    }
  }

  /** `add` of a new key appends it to the key order with the one-message list `[m]`. */
  lemma {:induction false} AddedNewKey(t: Table, key: Key, m: string)
    requires key !in t.msgs
    ensures Added(t, key, m) == Table(t.keys + [key], t.msgs[key := [m]])
  {
    assert [] + [m] == [m];
    assert Uniq([m]) == [m] by { assert [m][..0] == []; }
  }

  /** In a list without duplicates an element occurs at most once. */
  lemma {:induction false} DistinctCount<T>(s: seq<T>, x: T)
    requires Distinct(s) && x in s
    ensures multiset(s)[x] == 1
  {
    if s[0] == x {
      assert x !in s[1..];
      assert s == [s[0]] + s[1..];
    } else {
      DistinctCount(s[1..], x);
      assert s == [s[0]] + s[1..];
    }
  }

  /** `add` keeps the collection well formed. */
  lemma {:induction false} AddedWellFormed(t: Table, key: Key, m: string)
    requires WellFormed(t)
    ensures WellFormed(Added(t, key, m))
  {
    AddedKeys(t, key, m);
    AddedLists(t, key, m);
  }

  /** After `add` the key order is still duplicate-free and in step with the lists. */
  lemma {:induction false} AddedKeys(t: Table, key: Key, m: string)
    requires WellFormed(t)
    ensures Distinct(Added(t, key, m).keys)
    ensures forall k :: k in Added(t, key, m).msgs <==> k in Added(t, key, m).keys
  {
    var r := Added(t, key, m);
    if key !in t.msgs {
      assert key !in t.keys;
      forall i, j | 0 <= i < j < |r.keys| ensures r.keys[i] != r.keys[j] {
        if j == |t.keys| {
          assert r.keys[i] in t.keys;
        }
      }
    }
  }

  /** After `add` every list is still non-empty and duplicate-free. */
  lemma {:induction false} AddedLists(t: Table, key: Key, m: string)
    requires WellFormed(t)
    ensures forall k :: k in Added(t, key, m).msgs ==>
      Added(t, key, m).msgs[k] != [] && Distinct(Added(t, key, m).msgs[k])
  {
    var r := Added(t, key, m);
    AddedList(t, key, m);
    forall k | k in r.msgs ensures r.msgs[k] != [] && Distinct(r.msgs[k]) {
      if k != key {
        assert r.msgs[k] == t.msgs[k];
      }
    }
  }

  /** `add` only extends the key order and the message lists, and records its pair. */
  lemma {:induction false} AddedExtends(t: Table, key: Key, m: string)
    requires WellFormed(t)
    ensures t.keys <= Added(t, key, m).keys
    ensures forall k :: k in t.msgs ==> k in Added(t, key, m).msgs && t.msgs[k] <= Added(t, key, m).msgs[k]
    ensures key in Added(t, key, m).msgs && m in Added(t, key, m).msgs[key]
  {
    AddedSpec(t, key, m);
  }

  /** Adding the same message to the same key twice is adding it once. */
  lemma {:induction false} AddedIdempotent(t: Table, key: Key, m: string)
    ensures Added(Added(t, key, m), key, m) == Added(t, key, m)
  {
    var once := Added(t, key, m);
    var u := once.msgs[key];
    assert m in u;
    assert Uniq(u + [m]) == u by {
      assert (u + [m])[..|u|] == u;
      UniqOfDistinct(u);
    }
    UpdateSame(once.msgs, key);
    assert Added(once, key, m) == Table(once.keys, once.msgs[key := u]);
  }

  /** Updating a key twice keeps the second value. */
  lemma {:induction false} UpdateTwice(m: map<Key, seq<string>>, k: Key, a: seq<string>, b: seq<string>)
    ensures m[k := a][k := b] == m[k := b]
  {
  }

  /** Updating a key with its own value changes nothing. */
  lemma {:induction false} UpdateSame(m: map<Key, seq<string>>, k: Key)
    requires k in m
    ensures m[k := m[k]] == m
  {
  }

  // ---------------------------------------------------------------------
  // add_all

  /** `add` of every pair in order. */
  function Replay(t: Table, pairs: seq<(Key, string)>): Table
    decreases |pairs|
  {
    if pairs == [] then t else Replay(Added(t, pairs[0].0, pairs[0].1), pairs[1..])
  }

  /** `Array(values)`. */
  function ArrayOf(v: Values): seq<string>
  {
    match v
    case One(m) => [m]
    case Many(ms) => ms
    case Nil => []
  }

  /** The pairs `(key, m)` for the messages `ms` of one key, in order. */
  function Tagged(key: Key, ms: seq<string>): (r: seq<(Key, string)>)
    ensures |r| == |ms|
    ensures forall i :: 0 <= i < |ms| ==> r[i] == (key, ms[i])
  {
    if ms == [] then [] else [(key, ms[0])] + Tagged(key, ms[1..])
  }

  /** The `add` calls that `add_all(source)` makes, in order. */
  function Expand(source: seq<(Key, Values)>): seq<(Key, string)>
  {
    if source == [] then [] else Tagged(source[0].0, ArrayOf(source[0].1)) + Expand(source[1..])
  }

  /** How another `Errors` object appears to `add_all`: its `each` pairs. */
  function AsSource(pairs: seq<(Key, string)>): (r: seq<(Key, Values)>)
    ensures |r| == |pairs|
    ensures forall i :: 0 <= i < |pairs| ==> r[i] == (pairs[i].0, One(pairs[i].1))
  {
    if pairs == [] then [] else [(pairs[0].0, One(pairs[0].1))] + AsSource(pairs[1..])
  }

  /** Through `each`, an `Errors` source is replayed pair by pair. */
  lemma {:induction false} ExpandAsSource(pairs: seq<(Key, string)>)
    ensures Expand(AsSource(pairs)) == pairs
  {
    if pairs != [] {
      ExpandAsSource(pairs[1..]);
      assert AsSource(pairs)[1..] == AsSource(pairs[1..]);
    }
  }

  /** Replaying two lists is replaying their concatenation. */
  lemma {:induction false} ReplayAppend(t: Table, a: seq<(Key, string)>, b: seq<(Key, string)>)
    ensures Replay(t, a + b) == Replay(Replay(t, a), b)
    decreases |a|
  {
    if a == [] {
      assert a + b == b;
    } else {
      assert (a + b)[0] == a[0];
      assert (a + b)[1..] == a[1..] + b;
      ReplayAppend(Added(t, a[0].0, a[0].1), a[1..], b);
    }
  }

  /** Replaying one more pair is one more `add`. */
  lemma {:induction false} ReplaySnoc(t: Table, pairs: seq<(Key, string)>, key: Key, m: string)
    ensures Replay(t, pairs + [(key, m)]) == Added(Replay(t, pairs), key, m)
  {
    ReplayAppend(t, pairs, [(key, m)]);
    assert [(key, m)][1..] == [];
  }

  /** `add_all` keeps the collection well formed. */
  lemma {:induction false} ReplayWellFormed(t: Table, pairs: seq<(Key, string)>)
    requires WellFormed(t)
    ensures WellFormed(Replay(t, pairs))
    decreases |pairs|
  {
    if pairs != [] {
      AddedWellFormed(t, pairs[0].0, pairs[0].1);
      ReplayWellFormed(Added(t, pairs[0].0, pairs[0].1), pairs[1..]);
    }
  }

  /**
   * `add_all` only extends: the key order and every message list of the
   * target are prefixes of the new ones, and every replayed pair is present
   * afterwards.
   */
  lemma {:induction false} ReplayExtends(t: Table, pairs: seq<(Key, string)>)
    requires WellFormed(t)
    ensures t.keys <= Replay(t, pairs).keys
    ensures forall k :: k in t.msgs ==> k in Replay(t, pairs).msgs && t.msgs[k] <= Replay(t, pairs).msgs[k]
    ensures forall i :: 0 <= i < |pairs| ==>
      pairs[i].0 in Replay(t, pairs).msgs && pairs[i].1 in Replay(t, pairs).msgs[pairs[i].0]
    decreases |pairs|
  {
    if pairs != [] {
      var k, m := pairs[0].0, pairs[0].1;
      var t' := Added(t, k, m);
      AddedExtends(t, k, m);
      AddedWellFormed(t, k, m);
      ReplayExtends(t', pairs[1..]);
      var r := Replay(t, pairs);
      assert r == Replay(t', pairs[1..]);
      forall i | 0 <= i < |pairs|
        ensures pairs[i].0 in r.msgs && pairs[i].1 in r.msgs[pairs[i].0]
      {
        if i > 0 {
          assert pairs[i] == pairs[1..][i - 1];
        }
      }
    }
  }

  /** Replaying pairs that are all present already changes nothing. */
  lemma {:induction false} ReplayOfPresent(t: Table, pairs: seq<(Key, string)>)
    requires WellFormed(t)
    requires forall i :: 0 <= i < |pairs| ==> pairs[i].0 in t.msgs && pairs[i].1 in t.msgs[pairs[i].0]
    ensures Replay(t, pairs) == t
    decreases |pairs|
  {
    if pairs != [] {
      var (k, m) := pairs[0];
      AddedSpec(t, k, m);
      UpdateSame(t.msgs, k);
      assert Added(t, k, m) == t;
      ReplayOfPresent(t, pairs[1..]);
    }
  }

  /** `add_all` of the same source twice is `add_all` of it once. */
  lemma {:induction false} ReplayIdempotent(t: Table, pairs: seq<(Key, string)>)
    requires WellFormed(t)
    ensures Replay(Replay(t, pairs), pairs) == Replay(t, pairs)
  {
    ReplayExtends(t, pairs);
    ReplayWellFormed(t, pairs);
    ReplayOfPresent(Replay(t, pairs), pairs);
  }

  /** The collection is empty after `add_all` iff it was and nothing was added. */
  lemma {:induction false} ReplayEmptyIff(t: Table, pairs: seq<(Key, string)>)
    requires WellFormed(t)
    ensures Replay(t, pairs).keys == [] <==> t.keys == [] && pairs == []
    decreases |pairs|
  {
    if pairs != [] {
      var (k, m) := pairs[0];
      ReplayKeysGrow(Added(t, k, m), pairs[1..]);
    }
  }

  /** `add` never removes a key from the key order. */
  lemma {:induction false} ReplayKeysGrow(t: Table, pairs: seq<(Key, string)>)
    ensures t.keys <= Replay(t, pairs).keys
    decreases |pairs|
  {
    if pairs != [] {
      ReplayKeysGrow(Added(t, pairs[0].0, pairs[0].1), pairs[1..]);
    }
  }

  /** `uniq` of a list that was already made unique, extended: as if never made unique. */
  lemma {:induction false} UniqAppendUniq(a: seq<string>, b: seq<string>)
    ensures Uniq(Uniq(a) + b) == Uniq(a + b)
    decreases |b|
  {
    if b == [] {
      assert Uniq(a) + b == Uniq(a) && a + b == a;
      UniqOfDistinct(Uniq(a));
    } else {
      var b0, y := b[..|b| - 1], b[|b| - 1];
      assert Uniq(a) + b == (Uniq(a) + b0) + [y] && a + b == (a + b0) + [y];
      UniqAppendUniq(a, b0);
      UniqSnoc(Uniq(a) + b0, y);
      UniqSnoc(a + b0, y);
    }
  }

  /** Replaying the messages of one key starts with `add` of the first. */
  lemma {:induction false} ReplayTaggedHead(t: Table, key: Key, ms: seq<string>)
    requires ms != []
    ensures Replay(t, Tagged(key, ms)) == Replay(Added(t, key, ms[0]), Tagged(key, ms[1..]))
  {
    var tagged := Tagged(key, ms);
    assert tagged[0] == (key, ms[0]) && tagged[1..] == Tagged(key, ms[1..]);
  }

  /** `add(key, ms[0])` followed by `uniq` with the rest: `uniq` with all of `ms`. */
  lemma {:induction false} AddedThenRest(t: Table, key: Key, ms: seq<string>)
    requires ms != []
    ensures key in Added(t, key, ms[0]).msgs
    ensures Added(t, key, ms[0]).msgs[key := Uniq(Added(t, key, ms[0]).msgs[key] + ms[1..])]
         == t.msgs[key := Uniq((if key in t.msgs then t.msgs[key] else []) + ms)]
  {
    var e := if key in t.msgs then t.msgs[key] else [];
    var u := Uniq(e + [ms[0]]);
    assert Added(t, key, ms[0]).msgs == t.msgs[key := u];
    assert Uniq(u + ms[1..]) == Uniq(e + ms) by {
      assert e + [ms[0]] + ms[1..] == e + ms;
      UniqAppendUniq(e + [ms[0]], ms[1..]);
    }
    UpdateTwice(t.msgs, key, u, Uniq(e + ms));
  }

  /**
   * Replaying `add(key, m)` for every `m` of `ms`, repeats included: the
   * key's list becomes `uniq` of its old list followed by `ms`, a new key
   * goes to the end of the key order, and every other key is untouched.
   */
  lemma {:induction false} ReplayTagged(t: Table, key: Key, ms: seq<string>)
    ensures Replay(t, Tagged(key, ms)) ==
      if ms == [] then t
      else Table(if key in t.msgs then t.keys else t.keys + [key],
                 t.msgs[key := Uniq((if key in t.msgs then t.msgs[key] else []) + ms)])
    decreases |ms|
  {
    if ms != [] {
      ReplayTaggedHead(t, key, ms);
      ReplayTagged(Added(t, key, ms[0]), key, ms[1..]);
      if ms[1..] == [] {
        assert ms == [ms[0]];
      } else {
        AddedThenRest(t, key, ms);
      }
    }
  }

  /** Replaying new distinct messages of a present key appends them to its list. */
  lemma {:induction false} ReplayPresentKey(t: Table, key: Key, ms: seq<string>)
    requires WellFormed(t) && key in t.msgs && Distinct(t.msgs[key] + ms)
    ensures Replay(t, Tagged(key, ms)) == Table(t.keys, t.msgs[key := t.msgs[key] + ms])
  {
    ReplayTagged(t, key, ms);
    if ms == [] {
      assert t.msgs[key] + ms == t.msgs[key];
      UpdateSame(t.msgs, key);
    } else {
      UniqOfDistinct(t.msgs[key] + ms);
    }
  }

  /** Replaying the distinct messages of a key that is not present yet. */
  lemma {:induction false} ReplayNewKey(t: Table, key: Key, ms: seq<string>)
    requires WellFormed(t) && key !in t.msgs && ms != [] && Distinct(ms)
    ensures Replay(t, Tagged(key, ms)) == Table(t.keys + [key], t.msgs[key := ms])
  {
    ReplayTagged(t, key, ms);
    assert [] + ms == ms;
    UniqOfDistinct(ms);
  }

  // ---------------------------------------------------------------------
  // each

  /** `each` over the keys `ks`: the pairs of each key's list, key by key. */
  function PairsFrom(ks: seq<Key>, msgs: map<Key, seq<string>>): seq<(Key, string)>
    requires forall i :: 0 <= i < |ks| ==> ks[i] in msgs
  {
    if ks == [] then [] else Tagged(ks[0], msgs[ks[0]]) + PairsFrom(ks[1..], msgs)
  }

  /** `each`: every (key, message) pair, keys in insertion order. */
  function PairsOf(t: Table): seq<(Key, string)>
    requires forall k :: k in t.keys ==> k in t.msgs
  {
    PairsFrom(t.keys, t.msgs)
  }

  /** The messages of the pairs whose key is `key`, in order. */
  function MessagesFor(pairs: seq<(Key, string)>, key: Key): seq<string>
  {
    if pairs == [] then []
    else (if pairs[0].0 == key then [pairs[0].1] else []) + MessagesFor(pairs[1..], key)
  }

  /** Position of a key in the key order (the length of the order for an absent key). */
  function Position(ks: seq<Key>, key: Key): (p: nat)
    ensures key in ks ==> p < |ks| && ks[p] == key
  {
    if ks == [] then 0 else if ks[0] == key then 0 else 1 + Position(ks[1..], key)
  }

  lemma {:induction false} MessagesForAppend(a: seq<(Key, string)>, b: seq<(Key, string)>, key: Key)
    ensures MessagesFor(a + b, key) == MessagesFor(a, key) + MessagesFor(b, key)
  {
    if a == [] {
      assert a + b == b;
    } else {
      assert (a + b)[0] == a[0];
      assert (a + b)[1..] == a[1..] + b;
      MessagesForAppend(a[1..], b, key);
    }
  }

  lemma {:induction false} MessagesForTagged(k: Key, ms: seq<string>, key: Key)
    ensures MessagesFor(Tagged(k, ms), key) == if k == key then ms else []
  {
    if ms != [] {
      MessagesForTagged(k, ms[1..], key);
      assert Tagged(k, ms)[1..] == Tagged(k, ms[1..]);
    }
  }

  /** Every pair of `each` holds a present key and one of its messages. */
  lemma {:induction false} PairsFromMembers(ks: seq<Key>, msgs: map<Key, seq<string>>)
    requires forall i :: 0 <= i < |ks| ==> ks[i] in msgs
    ensures forall i :: 0 <= i < |PairsFrom(ks, msgs)| ==>
      PairsFrom(ks, msgs)[i].0 in ks && PairsFrom(ks, msgs)[i].1 in msgs[PairsFrom(ks, msgs)[i].0]
  {
    if ks != [] {
      assert ks == [ks[0]] + ks[1..];
      var a := Tagged(ks[0], msgs[ks[0]]);
      var rest := PairsFrom(ks[1..], msgs);
      PairsFromMembers(ks[1..], msgs);
      var p := a + rest;
      forall i | 0 <= i < |p|
        ensures p[i].0 in ks && p[i].1 in msgs[p[i].0]
      {
        if i >= |a| {
          assert p[i] == rest[i - |a|];
          assert p[i].0 in ks[1..];
        }
      }
    }
  }

  /** Over distinct keys, the messages `each` yields for a key are exactly its list, in order. */
  lemma {:induction false} PairsFromMessages(ks: seq<Key>, msgs: map<Key, seq<string>>, key: Key)
    requires Distinct(ks)
    requires forall i :: 0 <= i < |ks| ==> ks[i] in msgs
    ensures MessagesFor(PairsFrom(ks, msgs), key) == if key in ks then msgs[key] else []
  {
    if ks != [] {
      assert ks == [ks[0]] + ks[1..];
      var k := ks[0];
      PairsFromMessages(ks[1..], msgs, key);
      MessagesForAppend(Tagged(k, msgs[k]), PairsFrom(ks[1..], msgs), key);
      MessagesForTagged(k, msgs[k], key);
      if key == k {
        assert k !in ks[1..];
      } else {
        assert key in ks <==> key in ks[1..];
      }
    }
  }

  /** The head of a list without duplicates is not in its tail, which has none either. */
  lemma {:induction false} DistinctTail(ks: seq<Key>)
    requires Distinct(ks) && ks != []
    ensures ks[0] !in ks[1..] && Distinct(ks[1..])
  {
    forall n | 0 <= n < |ks[1..]| ensures ks[1..][n] != ks[0] {
      assert ks[1..][n] == ks[n + 1];
    }
  }

  /** Over distinct keys, `each` yields the pairs grouped by key, in key order. */
  lemma {:induction false} PairsFromOrdered(ks: seq<Key>, msgs: map<Key, seq<string>>)
    requires Distinct(ks)
    requires forall i :: 0 <= i < |ks| ==> ks[i] in msgs
    ensures forall i, j :: 0 <= i < j < |PairsFrom(ks, msgs)| ==>
      Position(ks, PairsFrom(ks, msgs)[i].0) <= Position(ks, PairsFrom(ks, msgs)[j].0)
  {
    if ks != [] {
      var k := ks[0];
      var a := Tagged(k, msgs[k]);
      var rest := PairsFrom(ks[1..], msgs);
      DistinctTail(ks);
      PairsFromOrdered(ks[1..], msgs);
      PairsFromMembers(ks[1..], msgs);
      var p := a + rest;
      assert p == PairsFrom(ks, msgs);
      forall i, j | 0 <= i < j < |p|
        ensures Position(ks, p[i].0) <= Position(ks, p[j].0)
      {
        if i < |a| {
          assert p[i] == a[i];
          assert Position(ks, p[i].0) == 0;
        } else {
          var x, y := rest[i - |a|].0, rest[j - |a|].0;
          assert p[i].0 == x && p[j].0 == y;
          assert x in ks[1..] && y in ks[1..];
          PositionTail(ks, x);
          PositionTail(ks, y);
        }
      }
    }
  }

  /** A key after the first has one more than its position in the tail. */
  lemma {:induction false} PositionTail(ks: seq<Key>, x: Key)
    requires Distinct(ks) && ks != [] && x in ks[1..]
    ensures Position(ks, x) == 1 + Position(ks[1..], x)
  {
    DistinctTail(ks);
  }

  /**
   * `each` of a well-formed collection: every pair holds a present key and
   * one of its messages, the messages of each key come out as exactly its
   * list, the pairs are grouped by key in key order, and there are none iff
   * there are no keys.
   */
  lemma {:induction false} PairsOfSpec(t: Table)
    requires WellFormed(t)
    ensures var p := PairsOf(t);
      && (forall i :: 0 <= i < |p| ==> p[i].0 in t.keys && p[i].1 in t.msgs[p[i].0])
      && (forall key :: MessagesFor(p, key) == if key in t.msgs then t.msgs[key] else [])
      && (forall i, j :: 0 <= i < j < |p| ==> Position(t.keys, p[i].0) <= Position(t.keys, p[j].0))
      && (p == [] <==> t.keys == [])
  {
    PairsFromMembers(t.keys, t.msgs);
    forall key
      ensures MessagesFor(PairsOf(t), key) == if key in t.msgs then t.msgs[key] else []
    {
      PairsFromMessages(t.keys, t.msgs, key);
    }
    PairsFromOrdered(t.keys, t.msgs);
    PairsEmptyIff(t);
  }

  /** `each` yields nothing iff there are no keys. */
  lemma {:induction false} PairsEmptyIff(t: Table)
    requires WellFormed(t)
    ensures PairsOf(t) == [] <==> t.keys == []
  {
    if t.keys != [] {
      assert t.keys[0] in t.msgs;
      assert |Tagged(t.keys[0], t.msgs[t.keys[0]])| > 0;
    }
  }

  /** The collection restricted to its first `n` keys. */
  function Prefix(t: Table, n: nat): Table
    requires n <= |t.keys|
    requires forall k :: k in t.keys ==> k in t.msgs
  {
    Table(t.keys[..n], map k | k in t.keys[..n] :: t.msgs[k])
  }

  lemma {:induction false} PrefixEnds(t: Table)
    requires WellFormed(t)
    ensures Prefix(t, 0) == Empty
    ensures Prefix(t, |t.keys|) == t
  {
    assert t.keys[..|t.keys|] == t.keys;
    var full := Prefix(t, |t.keys|);
    assert full.msgs.Keys == t.msgs.Keys;
  }

  /** The next prefix adds the next key with its whole list. */
  lemma {:induction false} PrefixStep(t: Table, n: nat)
    requires WellFormed(t) && n < |t.keys|
    ensures var k := t.keys[n];
      && WellFormed(Prefix(t, n))
      && k !in Prefix(t, n).msgs
      && Prefix(t, n + 1) == Table(Prefix(t, n).keys + [k], Prefix(t, n).msgs[k := t.msgs[k]])
  {
    var k := t.keys[n];
    var p := Prefix(t, n);
    assert t.keys[..n + 1] == t.keys[..n] + [k];
    forall i | 0 <= i < n ensures t.keys[..n][i] != k {
      assert t.keys[..n][i] == t.keys[i];
    }
    var q := Prefix(t, n + 1);
    assert q.msgs.Keys == p.msgs[k := t.msgs[k]].Keys;
    forall a, b | 0 <= a < b < |p.keys| ensures p.keys[a] != p.keys[b] {
      assert p.keys[a] == t.keys[a] && p.keys[b] == t.keys[b];
    }
  }

  /** Replaying the pairs of the keys from position `n` on, into the first `n` keys. */
  lemma {:induction false} ReplayFromPrefix(t: Table, n: nat)
    requires WellFormed(t) && n <= |t.keys|
    ensures Replay(Prefix(t, n), PairsFrom(t.keys[n..], t.msgs)) == t
    decreases |t.keys| - n
  {
    PrefixEnds(t);
    if n < |t.keys| {
      var k := t.keys[n];
      assert t.keys[n..][0] == k && t.keys[n..][1..] == t.keys[n + 1..];
      ReplayAppend(Prefix(t, n), Tagged(k, t.msgs[k]), PairsFrom(t.keys[n + 1..], t.msgs));
      PrefixStep(t, n);
      ReplayNewKey(Prefix(t, n), k, t.msgs[k]);
      ReplayFromPrefix(t, n + 1);
    }
  }

  /** `add_all` of a collection's `each` into an empty collection copies it. */
  lemma {:induction false} ReplayPairsIntoEmpty(t: Table)
    requires WellFormed(t)
    ensures Replay(Empty, PairsOf(t)) == t
  {
    ReplayFromPrefix(t, 0);
    PrefixEnds(t);
    assert t.keys[0..] == t.keys;
  }

  // ---------------------------------------------------------------------
  // full_messages

  /** `full_message`: a `:base` message as it is, any other prefixed by its humanized key. */
  function FullMessage(key: Key, message: string): (r: string)
    ensures key == Base ==> r == message
    ensures key != Base ==> |r| == |key.name| + 1 + |message| && r[|key.name| + 1..] == message
  {
    if key == Base then message else StringUtils.Humanize(key.name) + " " + message
  }

  /** The shape of a full message for a key other than `:base`. */
  lemma {:induction false} FullMessageShape(key: Key, message: string)
    requires key != Base
    ensures var r := FullMessage(key, message); var n := |key.name|;
      && |r| == n + 1 + |message|
      && r[..n] == StringUtils.Humanize(key.name)
      && r[n] == ' ' && r[n + 1..] == message
      && (forall i :: 0 <= i < n ==> r[i] != '_' && r[i] != '.')
  {
  }

  /** `full_messages`: one sentence per pair, in the same order. */
  function Render(pairs: seq<(Key, string)>): (r: seq<string>)
    ensures |r| == |pairs|
    ensures forall i :: 0 <= i < |pairs| ==> r[i] == FullMessage(pairs[i].0, pairs[i].1)
  {
    if pairs == [] then [] else [FullMessage(pairs[0].0, pairs[0].1)] + Render(pairs[1..])
  }

  function FullMessagesOf(t: Table): seq<string>
    requires forall k :: k in t.keys ==> k in t.msgs
  {
    Render(PairsOf(t))
  }

  // ---------------------------------------------------------------------
  // as_json (the grouping, before the final `as_json(options)` of the hash)

  /** One step of `output[field] ||= []; output[field] << value`. */
  function Grouping(t: Table, key: Key, message: string): Table
  {
    if key in t.msgs then Table(t.keys, t.msgs[key := t.msgs[key] + [message]])
    else Table(t.keys + [key], t.msgs[key := [message]])
  }

  function Grouped(t: Table, pairs: seq<(Key, string)>): Table
    decreases |pairs|
  {
    if pairs == [] then t else Grouped(Grouping(t, pairs[0].0, pairs[0].1), pairs[1..])
  }

  lemma {:induction false} GroupedAppend(t: Table, a: seq<(Key, string)>, b: seq<(Key, string)>)
    ensures Grouped(t, a + b) == Grouped(Grouped(t, a), b)
    decreases |a|
  {
    if a == [] {
      assert a + b == b;
    } else {
      assert (a + b)[0] == a[0];
      assert (a + b)[1..] == a[1..] + b;
      GroupedAppend(Grouping(t, a[0].0, a[0].1), a[1..], b);
    }
  }

  lemma {:induction false} GroupedPresentKey(t: Table, key: Key, ms: seq<string>)
    requires key in t.msgs
    ensures Grouped(t, Tagged(key, ms)) == Table(t.keys, t.msgs[key := t.msgs[key] + ms])
    decreases |ms|
  {
    var l := t.msgs[key];
    if ms == [] {
      assert l + ms == l;
      UpdateSame(t.msgs, key);
    } else {
      var t1 := Grouping(t, key, ms[0]);
      assert l + [ms[0]] + ms[1..] == l + ms;
      GroupedPresentKey(t1, key, ms[1..]);
      UpdateTwice(t.msgs, key, l + [ms[0]], l + ms);
    }
  }

  lemma {:induction false} GroupedNewKey(t: Table, key: Key, ms: seq<string>)
    requires key !in t.msgs && ms != []
    ensures Grouped(t, Tagged(key, ms)) == Table(t.keys + [key], t.msgs[key := ms])
  {
    var t1 := Grouping(t, key, ms[0]);
    assert [ms[0]] + ms[1..] == ms;
    GroupedPresentKey(t1, key, ms[1..]);
    UpdateTwice(t.msgs, key, [ms[0]], ms);
  }

  lemma {:induction false} GroupedFromPrefix(t: Table, n: nat)
    requires WellFormed(t) && n <= |t.keys|
    ensures Grouped(Prefix(t, n), PairsFrom(t.keys[n..], t.msgs)) == t
    decreases |t.keys| - n
  {
    PrefixEnds(t);
    if n < |t.keys| {
      var k := t.keys[n];
      assert t.keys[n..][0] == k && t.keys[n..][1..] == t.keys[n + 1..];
      GroupedAppend(Prefix(t, n), Tagged(k, t.msgs[k]), PairsFrom(t.keys[n + 1..], t.msgs));
      PrefixStep(t, n);
      GroupedNewKey(Prefix(t, n), k, t.msgs[k]);
      GroupedFromPrefix(t, n + 1);
    }
  }

  /** Grouping the pairs of `each` back by key gives the collection itself. */
  lemma {:induction false} GroupedPairs(t: Table)
    requires WellFormed(t)
    ensures Grouped(Empty, PairsOf(t)) == t
  {
    GroupedFromPrefix(t, 0);
    PrefixEnds(t);
    assert t.keys[0..] == t.keys;
  }

  // ---------------------------------------------------------------------
  // The mutable collection

  class Errors {
    var keys: seq<Key>
    var msgs: map<Key, seq<string>>

    /** The contents as a value. */
    function State(): Table
      reads this
    {
      Table(keys, msgs)
    }

    ghost predicate Valid()
      reads this
    {
      WellFormed(State())
    }

    /** `Errors.new`. */
    constructor ()
      ensures Valid() && State() == Empty
    {
      keys := [];
      msgs := map[];
    }

    /** `add(key, value)`. */
    method Add(key: Key, message: string)
      requires Valid()
      modifies this
      ensures Valid()
      ensures State() == Added(old(State()), key, message)
    {
      ghost var before := State();
      if key !in msgs {
        keys := keys + [key];
        msgs := msgs[key := []];
      }
      ghost var m1 := msgs;
      msgs := msgs[key := msgs[key] + [message]];
      msgs := msgs[key := Uniq(msgs[key])];
      assert msgs == before.msgs[key := Uniq(m1[key] + [message])] by {
        UpdateTwice(m1, key, m1[key] + [message], Uniq(m1[key] + [message]));
        if key !in before.msgs {
          UpdateTwice(before.msgs, key, [], Uniq(m1[key] + [message]));
        }
      }
      assert State() == Added(before, key, message);
      AddedWellFormed(before, key, message);
    }

    /** `add_all(source)`: `add` of every message of every entry, `Array`-wrapped. */
    method AddAll(source: seq<(Key, Values)>)
      requires Valid()
      modifies this
      ensures Valid()
      ensures State() == Replay(old(State()), Expand(source))
    {
      ghost var goal := Replay(State(), Expand(source));
      for i := 0 to |source|
        invariant Valid()
        invariant Replay(State(), Expand(source[i..])) == goal
      {
        var (key, values) := source[i];
        var list := ArrayOf(values);
        ghost var rest := Expand(source[i + 1..]);
        assert Replay(Replay(State(), Tagged(key, list)), rest) == goal by {
          assert source[i..][0] == source[i] && source[i..][1..] == source[i + 1..];
          assert Expand(source[i..]) == Tagged(key, list) + rest;
          ReplayAppend(State(), Tagged(key, list), rest);
        }
        for j := 0 to |list|
          invariant Valid()
          invariant Replay(Replay(State(), Tagged(key, list[j..])), rest) == goal
        {
          ghost var tagged := Tagged(key, list[j..]);
          assert tagged[0] == (key, list[j]) && tagged[1..] == Tagged(key, list[j + 1..]);
          Add(key, list[j]);
        }
        assert Tagged(key, list[|list|..]) == [];
      }
    }

    /** `each`: every pair, grouped by key in insertion order, messages in list order. */
    function Each(): (r: seq<(Key, string)>)
      reads this
      requires Valid()
      ensures forall i :: 0 <= i < |r| ==> r[i].0 in keys && r[i].1 in msgs[r[i].0]
      ensures forall key :: MessagesFor(r, key) == if key in msgs then msgs[key] else []
      ensures forall i, j :: 0 <= i < j < |r| ==> Position(keys, r[i].0) <= Position(keys, r[j].0)
      ensures r == [] <==> keys == []
    {
      PairsOfSpec(State());
      PairsOf(State())
    }

    /** `full_messages`: one rendered sentence per pair of `each`, in order. */
    function FullMessages(): (r: seq<string>)
      reads this
      requires Valid()
      ensures |r| == |Each()|
      ensures forall i :: 0 <= i < |r| ==> r[i] == FullMessage(Each()[i].0, Each()[i].1)
    {
      FullMessagesOf(State())
    }

    /** `as_json`, up to the final conversion: the pairs grouped back into key -> list. */
    function AsJson(): (r: Table)
      reads this
      requires Valid()
      ensures r == State()
    {
      GroupedPairs(State());
      Grouped(Empty, PairsOf(State()))
    }

    /** `any?` of the underlying hash: some key is present. */
    function Any(): (b: bool)
      reads this
      requires Valid()
      ensures b <==> Each() != []
    {
      keys != []
    }
  }

  // ---------------------------------------------------------------------
  // The examples of the collection's own tests

  lemma {:induction false} AddExamples()
    ensures Added(Empty, Sym("foo"), "is not working").msgs[Sym("foo")] == ["is not working"]
    ensures var once := Added(Empty, Sym("foo"), "is broken");
      Added(once, Sym("foo"), "is broken").msgs[Sym("foo")] == ["is broken"]
  {
    assert ["is not working"][..0] == [];
    assert ["is broken"][..0] == [];
    AddedIdempotent(Empty, Sym("foo"), "is broken");
  }

  /** The collection after `add(k0, m0)` and `add(k1, m1)` on two keys. */
  lemma {:induction false} TwoKeysTable(k0: Key, m0: string, k1: Key, m1: string)
    requires k0 != k1
    ensures Replay(Empty, [(k0, m0), (k1, m1)]) == Table([k0, k1], map[k0 := [m0], k1 := [m1]])
  {
    var t0 := Table([k0], map[k0 := [m0]]);
    ReplaySnoc(Empty, [], k0, m0);
    ReplaySnoc(Empty, [(k0, m0)], k1, m1);
    assert [] + [(k0, m0)] == [(k0, m0)];
    assert [(k0, m0)] + [(k1, m1)] == [(k0, m0), (k1, m1)];
    AddedNewKey(Empty, k0, m0);
    assert Empty.msgs[k0 := [m0]] == t0.msgs;
    AddedNewKey(t0, k1, m1);
  }

  /** The collection after `add(foo, a)`, `add(bar, b)`, `add(foo, c)`. */
  lemma {:induction false} InterleavedTable(foo: Key, bar: Key, a: string, b: string, c: string)
    requires foo != bar && a != c
    ensures Replay(Empty, [(foo, a), (bar, b), (foo, c)]) == Table([foo, bar], map[foo := [a, c], bar := [b]])
  {
    TwoKeysTable(foo, a, bar, b);
    ReplayThird((foo, a), (bar, b), (foo, c));
    InterleavedLast(foo, bar, a, b, c);
  }

  /** Replaying three pairs is replaying two and adding the third. */
  lemma {:induction false} ReplayThird(x: (Key, string), y: (Key, string), z: (Key, string))
    ensures Replay(Empty, [x, y, z]) == Added(Replay(Empty, [x, y]), z.0, z.1)
  {
    assert [x, y] + [z] == [x, y, z];
    ReplaySnoc(Empty, [x, y], z.0, z.1);
  }

  /** The last step of `InterleavedTable`: `add(foo, c)` after foo and bar. */
  lemma {:induction false} InterleavedLast(foo: Key, bar: Key, a: string, b: string, c: string)
    requires foo != bar && a != c
    ensures Added(Table([foo, bar], map[foo := [a], bar := [b]]), foo, c)
         == Table([foo, bar], map[foo := [a, c], bar := [b]])
  {
    var t2 := Table([foo, bar], map[foo := [a], bar := [b]]);
    AddedSecond(t2, foo, a, c);
    assert t2.msgs[foo := [a, c]] == map[foo := [a, c], bar := [b]];
  }

  /** A second, different message on a key holding one message goes after it. */
  lemma {:induction false} AddedSecond(t: Table, key: Key, a: string, c: string)
    requires key in t.msgs && t.msgs[key] == [a] && a != c
    ensures Added(t, key, c) == Table(t.keys, t.msgs[key := [a, c]])
  {
    UniqSnoc([a], c);
    UniqOfDistinct([a]);
    assert [a] + [c] == [a, c];
  }

  /** `each` groups by key in insertion order: `foo, foo, bar`. */
  lemma {:induction false} EachExample(foo: Key, bar: Key, a: string, b: string, c: string)
    requires foo != bar && a != c
    ensures var t := Replay(Empty, [(foo, a), (bar, b), (foo, c)]);
      WellFormed(t) && PairsOf(t) == [(foo, a), (foo, c), (bar, b)]
  {
    ReplayWellFormed(Empty, [(foo, a), (bar, b), (foo, c)]);
    InterleavedTable(foo, bar, a, b, c);
    var t := Table([foo, bar], map[foo := [a, c], bar := [b]]);
    var rest := t.keys[1..];
    assert t.keys[0] == foo && rest == [bar] && rest[0] == bar && rest[1..] == [];
    assert t.msgs[foo] == [a, c] && t.msgs[bar] == [b];
    assert Tagged(foo, [a, c]) == [(foo, a), (foo, c)];
    assert Tagged(bar, [b]) == [(bar, b)];
    assert PairsFrom(rest, t.msgs) == Tagged(bar, [b]) + PairsFrom([], t.msgs);
    assert PairsFrom(t.keys, t.msgs) == Tagged(foo, [a, c]) + PairsFrom(rest, t.msgs);
  }
}
