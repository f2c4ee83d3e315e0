/**
 * `SimplerCommand`: a command object that runs its logic at most once,
 * records failures in an `Errors` collection and exposes the outcome as
 * success / failure and a result that raises on failure.
 *
 * The user's `#call` (the method the module's own `call` wraps through
 * `super`) is a function of the constructor arguments: it returns a value,
 * the `errors.add` calls it makes, in order, and whether it calls `call`
 * on its own command once more (without a block) after them.
 */
module SimplerCommand {
  import opened Wrappers
  import opened ErrorCollection
  import StringUtils

  /** The exceptions the module raises. */
  datatype Exception =
    | NotImplementedError           // `SimplerCommand::NotImplementedError`
    | FailureError(message: string) // `SimplerCommand::Failure` with its message

  /** A value returned normally, or an exception raised. */
  datatype Outcome<T> = Returned(value: T) | Raised(error: Exception)

  /** What one run of the user's logic does. */
  datatype Step<V> = Step(value: V, additions: seq<(Key, string)>, reenters: bool)

  /** The user's logic, or `None` when the class defines no `#call`. */
  type Logic<!A, V> = Option<A -> Step<V>>

  /** The message of the `Failure` raised for the errors in `t`. */
  function FailureMessage(t: Table): string
    requires forall k :: k in t.keys ==> k in t.msgs
  {
    StringUtils.ToSentence(FullMessagesOf(t))
  }

  class Command<A, V(==)> {
    const args: A
    const logic: Logic<A, V>
    /** `errors`, default branch: the command's own collection. */
    const errors: Errors
    /** `@called`; `called?` reads it. */
    var called: bool
    /** `@result`. */
    var result: Option<V>
    /** How often the user's logic has run. */
    ghost var runs: nat

    ghost predicate Valid()
      reads this, errors
    {
      && errors.Valid()
      && runs == (if called then 1 else 0)
      && (!called ==> result.None?)
      && (logic.None? ==> !called)
    }

    /** `new(*args)`. */
    constructor (args: A, logic: Logic<A, V>)
      ensures Valid()
      ensures this.args == args && this.logic == logic
      ensures !called && result.None? && runs == 0
      ensures fresh(errors) && errors.State() == Empty
    {
      this.args := args;
      this.logic := logic;
      errors := new Errors();
      called := false;
      result := None;
      runs := 0;
    }

    /** `failure?`: the command ran and recorded at least one error. */
    function Failure(): (b: bool)
      reads this, errors
      requires Valid()
      ensures b <==> called && errors.Each() != []
      ensures !called ==> !b
    {
      called && errors.Any()
    }

    /** `success?` (and its alias `successful?`): the command ran and recorded no error. */
    function Success(): (b: bool)
      reads this, errors
      requires Valid()
      ensures b <==> called && errors.Each() == []
      ensures called ==> (b <==> !Failure())
      ensures !called ==> !b && !Failure()
    {
      called && !Failure()
    }

    /**
     * `result`: raises `Failure` with the full messages joined into a
     * sentence when the command failed, and otherwise returns `@result`,
     * which is `nil` before the first `call`.
     */
    function Result(): (r: Outcome<Option<V>>)
      reads this, errors
      requires Valid()
      ensures r.Raised? <==> Failure()
      ensures Failure() ==> r == Raised(FailureError(FailureMessage(errors.State())))
      ensures Success() ==> r == Returned(result)
      ensures !called ==> r == Returned(None)
    {
      if Failure() then Raised(FailureError(FailureMessage(errors.State())))
      else Returned(result)
    }

    /**
     * `call(&block)`: raises `NotImplementedError` when there is no logic;
     * otherwise runs the logic the first time only, then yields `result`
     * to the block, if any, and returns the command itself.
     */
    method Call(withBlock: bool) returns (r: Outcome<Command<A, V>>, yielded: Option<Option<V>>)
      requires Valid()
      modifies this, errors
      decreases if called then 0 else 1, 1
      ensures Valid()
      ensures logic.None? ==> r == Raised(NotImplementedError) && yielded == None
      ensures logic.None? || old(called) ==> unchanged(this) && unchanged(errors)
      ensures logic.Some? ==> called && runs == 1
      ensures logic.Some? && !old(called) ==>
        && result == Some(logic.value(args).value)
        && errors.State() == Replay(old(errors.State()), logic.value(args).additions)
      ensures logic.Some? ==>
        && r == (if withBlock && Result().Raised? then Raised(Result().error) else Returned(this))
        && yielded == (if withBlock && Result().Returned? then Some(Result().value) else None)
    {
      if logic.None? {
        return Raised(NotImplementedError), None;
      }
      if !called {
        Run();
      }
      r, yielded := Returned(this), None;
      if withBlock {
        var res := Result();
        if res.Raised? {
          r := Raised(res.error);
        } else {
          yielded := Some(res.value);
        }
      }
    }

    /**
     * The first `call`: `@called` is set before the logic runs, so that a
     * nested `call` from the logic does not run it again; then the logic's
     * errors are recorded and its value becomes `@result`.
     */
    method Run()
      requires Valid() && logic.Some? && !called
      modifies this, errors
      decreases 1, 0
      ensures Valid() && called && runs == 1
      ensures result == Some(logic.value(args).value)
      ensures errors.State() == Replay(old(errors.State()), logic.value(args).additions)
    {
      called := true;
      runs := runs + 1;
      var step := logic.value(args);
      Record(errors, step.additions);
      if step.reenters {
        var again, none := Call(false);
      }
      result := Some(step.value);
    }
  }

  /** The logic's `errors.add(key, message)` calls, in order. */
  method Record(errors: Errors, additions: seq<(Key, string)>)
    requires errors.Valid()
    modifies errors
    ensures errors.Valid()
    ensures errors.State() == Replay(old(errors.State()), additions)
  {
    ghost var goal := Replay(errors.State(), additions);
    for i := 0 to |additions|
      invariant errors.Valid()
      invariant Replay(errors.State(), additions[i..]) == goal
    {
      var key, message := additions[i].0, additions[i].1;
      assert additions[i..][0] == (key, message) && additions[i..][1..] == additions[i + 1..];
      errors.Add(key, message);
    }
    assert additions[|additions|..] == [];
  }

  /**
   * What `Klass.call!(*args)` gives: `NotImplementedError` without logic;
   * otherwise the logic's value, or `Failure` when its additions leave
   * any error in the fresh collection.
   */
  function OneShot<A, V(==)>(logic: Logic<A, V>, args: A): Outcome<Option<V>>
  {
    match logic
    case None => Raised(NotImplementedError)
    case Some(f) =>
      var t := Replay(Empty, f(args).additions);
      ReplayWellFormed(Empty, f(args).additions);
      if t.keys != [] then Raised(FailureError(FailureMessage(t)))
      else Returned(Some(f(args).value))
  }

  /** A fresh command fails exactly when its logic adds at least one error. */
  lemma {:induction false} OneShotFailsIff<A, V>(f: A -> Step<V>, args: A)
    ensures OneShot(Some(f), args).Raised? <==> f(args).additions != []
    ensures f(args).additions == [] ==> OneShot(Some(f), args) == Returned(Some(f(args).value))
  {
    ReplayEmptyIff(Empty, f(args).additions);
  }

  /** The Failure message lists the full messages of the errors added, in order. */
  lemma {:induction false} OneShotMessage<A, V>(f: A -> Step<V>, args: A)
    requires f(args).additions != []
    ensures var t := Replay(Empty, f(args).additions);
      && WellFormed(t)
      && OneShot(Some(f), args) == Raised(FailureError(StringUtils.ToSentence(Render(PairsOf(t)))))
  {
    ReplayWellFormed(Empty, f(args).additions);
    ReplayEmptyIff(Empty, f(args).additions);
  }

  /** `Klass.call(*args, &block)`: `new(*args).call(&block)`. */
  method ClassCall<A, V(==)>(logic: Logic<A, V>, args: A, withBlock: bool)
    returns (r: Outcome<Command<A, V>>, yielded: Option<Option<V>>)
    ensures logic.None? ==> r == Raised(NotImplementedError) && yielded == None
    ensures logic.Some? && !withBlock ==> r.Returned? && yielded == None
    ensures logic.Some? && withBlock ==>
      && (r.Raised? <==> OneShot(logic, args).Raised?)
      && (r.Raised? ==> r.error == OneShot(logic, args).error && yielded == None)
      && (r.Returned? ==> yielded == Some(OneShot(logic, args).value))
    ensures r.Returned? ==>
      && fresh(r.value) && r.value.Valid() && r.value.called && r.value.runs == 1
      && r.value.Result() == OneShot(logic, args)
    ensures r.Returned? ==>
      && r.value.args == args && r.value.logic == logic
      && r.value.result == Some(logic.value(args).value)
      && r.value.errors.State() == Replay(Empty, logic.value(args).additions)
  {
    var c := new Command(args, logic);
    r, yielded := c.Call(withBlock);
    if logic.Some? {
      ReplayWellFormed(Empty, logic.value(args).additions);
      PairsEmptyIff(c.errors.State());
    }
  }

  /** `Klass.call!(*args)`: `call(*args).result`. */
  method ClassCallBang<A, V(==)>(logic: Logic<A, V>, args: A) returns (r: Outcome<Option<V>>)
    ensures r == OneShot(logic, args)
  {
    var c, none := ClassCall(logic, args, false);
    if c.Raised? {
      return Raised(c.error);
    }
    r := c.value.Result();
  }

  /**
   * Calling a command three times runs its logic once, and its result is
   * that of the first call.
   */
  method CallThrice<A, V(==)>(c: Command<A, V>) returns (r: Outcome<Option<V>>)
    requires c.Valid() && c.logic.Some?
    modifies c, c.errors
    ensures c.Valid() && c.called && c.runs == 1
    ensures !old(c.called) ==> c.result == Some(c.logic.value(c.args).value)
    ensures r == c.Result()
  {
    var r1, y1 := c.Call(false);
    ghost var afterFirst := c.result;
    var r2, y2 := c.Call(false);
    var r3, y3 := c.Call(false);
    assert c.result == afterFirst;
    r := c.Result();
  }

  // ---------------------------------------------------------------------
  // The commands of the module's own tests

  /** `SuccessfulCommand`: returns the sum of its two arguments. */
  function Sum(p: (int, int)): Step<int>
  {
    Step(p.0 + p.1, [], false)
  }

  /** `FailingCommand`: adds one error on `:base`. */
  function Failing(u: ()): Step<Option<seq<string>>>
  {
    Step(None, [(Base, "Failed as expected")], false)
  }

  /** `FailingValidationCommand`: adds an error on `:base`, then one on `:foo`. */
  function FailingTwice(u: ()): Step<Option<seq<string>>>
  {
    Step(None, [(Base, "All is Broken"), (Sym("foo"), "is not welcome")], false)
  }

  lemma {:induction false} SuccessfulExample()
    ensures OneShot(Some(Sum), (2, 3)) == Returned(Some(5))
  {
    OneShotFailsIff(Sum, (2, 3));
  }

  /** The collection after a single error on `:base`, and its `each`. */
  lemma {:induction false} OneBaseErrorTable(m: string)
    ensures Replay(Empty, [(Base, m)]) == Table([Base], map[Base := [m]])
    ensures PairsOf(Table([Base], map[Base := [m]])) == [(Base, m)]
  {
    var t := Table([Base], map[Base := [m]]);
    assert Replay(Empty, [(Base, m)]) == t by {
      ReplaySnoc(Empty, [], Base, m);
      assert [] + [(Base, m)] == [(Base, m)];
      AddedNewKey(Empty, Base, m);
      assert Empty.msgs[Base := [m]] == t.msgs;
    }
    assert PairsOf(t) == [(Base, m)] by {
      assert t.keys[0] == Base && t.keys[1..] == [];
      assert t.msgs[Base] == [m];
      assert Tagged(Base, [m]) == [(Base, m)];
      assert PairsFrom(t.keys, t.msgs) == Tagged(Base, [m]) + PairsFrom([], t.msgs);
    }
  }

  /** A single error on `:base` is raised with its message as it is. */
  lemma {:induction false} OneBaseError<A, V>(f: A -> Step<V>, args: A, m: string)
    requires f(args).additions == [(Base, m)]
    ensures OneShot(Some(f), args) == Raised(FailureError(m))
  {
    OneBaseErrorTable(m);
    var t := Table([Base], map[Base := [m]]);
    assert FullMessagesOf(t) == [m];
  }

  /** Its `each`: the two pairs in the order they were added. */
  lemma {:induction false} TwoErrorsPairs(m0: string, key: Key, m1: string)
    requires key != Base
    ensures PairsOf(Table([Base, key], map[Base := [m0], key := [m1]])) == [(Base, m0), (key, m1)]
  {
    var t := Table([Base, key], map[Base := [m0], key := [m1]]);
    var rest := t.keys[1..];
    assert t.keys[0] == Base && rest == [key] && rest[0] == key && rest[1..] == [];
    assert t.msgs[Base] == [m0] && t.msgs[key] == [m1];
    assert Tagged(Base, [m0]) == [(Base, m0)];
    assert Tagged(key, [m1]) == [(key, m1)];
    assert PairsFrom(rest, t.msgs) == Tagged(key, [m1]) + PairsFrom([], t.msgs);
    assert PairsFrom(t.keys, t.msgs) == Tagged(Base, [m0]) + PairsFrom(rest, t.msgs);
  }

  /**
   * An error on `:base` and then one on another key: the two full messages
   * joined with ", ".
   */
  lemma {:induction false} TwoErrors<A, V>(f: A -> Step<V>, args: A, m0: string, key: Key, m1: string)
    requires key != Base
    requires f(args).additions == [(Base, m0), (key, m1)]
    ensures OneShot(Some(f), args) == Raised(FailureError(m0 + ", " + FullMessage(key, m1)))
  {
    var t := Table([Base, key], map[Base := [m0], key := [m1]]);
    TwoKeysTable(Base, m0, key, m1);
    TwoErrorsPairs(m0, key, m1);
    var full := FullMessagesOf(t);
    assert full == [m0, FullMessage(key, m1)];
    assert full[1..] == [FullMessage(key, m1)];
  }

  lemma {:induction false} FailingExample()
    ensures OneShot(Some(Failing), ()) == Raised(FailureError("Failed as expected"))
  {
    OneBaseError(Failing, (), "Failed as expected");
  }

  /** The full message of `errors.add(:foo, "is not welcome")`. */
  /** A message on `:foo` is prefixed by "Foo" and a space. */
  lemma {:induction false} FooPrefix(m: string)
    ensures FullMessage(Sym("foo"), m) == "Foo" + " " + m
  {
    StringUtils.HumanizeFoo();
  }

  lemma {:induction false} FooMessage()
    ensures FullMessage(Sym("foo"), "is not welcome") == "Foo is not welcome"
    ensures "All is Broken" + ", " + FullMessage(Sym("foo"), "is not welcome") == "All is Broken, Foo is not welcome"
  {
    FooPrefix("is not welcome");
    FooJoined();
    SentenceJoined();
  }

  lemma {:induction false} FooJoined()
    ensures "Foo" + " " + "is not welcome" == "Foo is not welcome"
  {
  }

  lemma {:induction false} SentenceJoined()
    ensures "All is Broken" + ", " + "Foo is not welcome" == "All is Broken, Foo is not welcome"
  {
  }

  /** Without ActiveSupport the two full messages are joined with ", ". */
  lemma {:induction false} FailingTwiceExample()
    ensures OneShot(Some(FailingTwice), ()) == Raised(FailureError("All is Broken, Foo is not welcome"))
  {
    TwoErrors(FailingTwice, (), "All is Broken", Sym("foo"), "is not welcome");
    FooMessage();
  }

  /**
   * `FailingCommand.call`: the command is a failure and not a success, its
   * errors hold `["Failed as expected"]` under `:base`, and `result` raises
   * with that message.
   */
  method FailingCommandExample()
    returns (failure: bool, success: bool, base: seq<string>, result: Outcome<Option<Option<seq<string>>>>)
    ensures failure && !success
    ensures base == ["Failed as expected"]
    ensures result == Raised(FailureError("Failed as expected"))
  {
    var r, _ := ClassCall(Some(Failing), (), false);
    OneBaseErrorTable("Failed as expected");
    FailingExample();
    var c := r.value;
    failure, success := c.Failure(), c.Success();
    base := c.errors.msgs[Base];
    result := c.Result();
  }

  lemma {:induction false} IncompleteExample()
    ensures OneShot<(), int>(None, ()) == Raised(NotImplementedError)
  {
  }
}
