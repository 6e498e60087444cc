/**
 Laws of the command loop: which tokens are read, what each one produces,
 that the menu is shown unchanged before every read, and that nothing
 follows the exit.
 */
module PrototypeLaws {
  import opened Values
  import opened Prototype

  // ---------------------------------------------------------------------------
  // Reference definitions over the input tokens
  // ---------------------------------------------------------------------------

  /** The tokens typed before the first exit token (all of them if there is none). */
  function BeforeExit(tokens: seq<string>): seq<string> {
    if |tokens| == 0 || tokens[0] == ExitKey then []
    else [tokens[0]] + BeforeExit(tokens[1..])
  }

  /**
   `BeforeExit` is the longest prefix free of the exit token: it holds no exit
   token, and it is either all the tokens or followed by the exit token.
   */
  lemma {:induction false} BeforeExitIsPrefix(tokens: seq<string>)
    ensures var b := BeforeExit(tokens);
      && ExitKey !in b
      && |b| <= |tokens| && b == tokens[..|b|]
      && (ExitKey in tokens ==> |b| < |tokens| && tokens[|b|] == ExitKey)
      && (ExitKey !in tokens ==> b == tokens)
    decreases |tokens|
  {
    if |tokens| > 0 && tokens[0] != ExitKey {
      BeforeExitIsPrefix(tokens[1..]);
      ExitInTail(tokens);
      assert tokens == [tokens[0]] + tokens[1..];
    }
  }

  /** The tokens the loop reads: up to and including the first exit token. */
  function Consumed(tokens: seq<string>): seq<string> {
    if |tokens| == 0 then []
    else if tokens[0] == ExitKey then [ExitKey]
    else [tokens[0]] + Consumed(tokens[1..])
  }

  /** The tokens read are those before the first exit token, and that token if it was typed. */
  lemma {:induction false} ConsumedSplit(tokens: seq<string>)
    ensures Consumed(tokens) == if ExitKey in tokens then BeforeExit(tokens) + [ExitKey] else tokens
    decreases |tokens|
  {
    if |tokens| > 0 && tokens[0] != ExitKey {
      ConsumedSplit(tokens[1..]);
      ExitInTail(tokens);
      if ExitKey !in tokens {
        assert tokens == [tokens[0]] + tokens[1..];
      } else {
        assert [tokens[0]] + (BeforeExit(tokens[1..]) + [ExitKey])
            == [tokens[0]] + BeforeExit(tokens[1..]) + [ExitKey];
      }
    } else if |tokens| > 0 {
      assert ExitKey in tokens;
    }
  }

  /** The (verb, path) of every token that names a table entry, in order. */
  function Requested(t: Table, tokens: seq<string>): seq<(string, string)> {
    if |tokens| == 0 then []
    else
      (match Lookup(t, tokens[0])
       case Some(r) => [(r.verb, r.path)]
       case None => [])
      + Requested(t, tokens[1..])
  }

  /** How many tokens name neither a table entry nor the exit. */
  function Unrecognised(t: Table, tokens: seq<string>): nat {
    if |tokens| == 0 then 0
    else (if !HasKey(t, tokens[0]) && tokens[0] != ExitKey then 1 else 0) + Unrecognised(t, tokens[1..])
  }

  // ---------------------------------------------------------------------------
  // Observations of a trace
  // ---------------------------------------------------------------------------

  /** The (verb, path) of every `Dispatch` in a trace, in order. */
  function Dispatches(trace: seq<Action>): seq<(string, string)> {
    if |trace| == 0 then []
    else (if trace[0].Dispatch? then [(trace[0].verb, trace[0].path)] else []) + Dispatches(trace[1..])
  }

  function UnknownCount(trace: seq<Action>): nat {
    if |trace| == 0 then 0
    else (if trace[0] == Unknown then 1 else 0) + UnknownCount(trace[1..])
  }

  function MenuCount(trace: seq<Action>): nat {
    if |trace| == 0 then 0
    else (if trace[0].ShowMenu? then 1 else 0) + MenuCount(trace[1..])
  }

  lemma ObservationsSingle(a: Action)
    ensures Dispatches([a]) == (if a.Dispatch? then [(a.verb, a.path)] else [])
    ensures UnknownCount([a]) == (if a == Unknown then 1 else 0)
    ensures MenuCount([a]) == (if a.ShowMenu? then 1 else 0)
  {
    assert [a][1..] == [];
  }

  lemma {:induction false} ObservationsAppend(a: seq<Action>, b: seq<Action>)
    ensures Dispatches(a + b) == Dispatches(a) + Dispatches(b)
    ensures UnknownCount(a + b) == UnknownCount(a) + UnknownCount(b)
    ensures MenuCount(a + b) == MenuCount(a) + MenuCount(b)
    decreases |a|
  {
    if |a| > 0 {
      assert (a + b)[1..] == a[1..] + b;
      ObservationsAppend(a[1..], b);
    } else {
      assert a + b == b;
    }
  }

  // ---------------------------------------------------------------------------
  // Laws of the loop
  // ---------------------------------------------------------------------------

  /** The trace of one pass of the loop: the menu, the reaction to the token, then the rest. */
  lemma RunStep(t: Table, tokens: seq<string>)
    requires |tokens| > 0
    ensures var s := React(t, tokens[0]);
      Run(t, tokens) == [ShowMenu(Menu(t))] + (s.actions + (if s.stop then [Exit] else Run(t, tokens[1..])))
  {
  }

  /** How the observations of one pass of the loop add up. */
  lemma RunStepObserved(t: Table, tokens: seq<string>)
    requires |tokens| > 0
    ensures var s := React(t, tokens[0]);
      var rest := if s.stop then [Exit] else Run(t, tokens[1..]);
      && Dispatches(Run(t, tokens)) == Dispatches(s.actions) + Dispatches(rest)
      && UnknownCount(Run(t, tokens)) == UnknownCount(s.actions) + UnknownCount(rest)
      && MenuCount(Run(t, tokens)) == 1 + MenuCount(s.actions) + MenuCount(rest)
  {
    var s := React(t, tokens[0]);
    var rest := if s.stop then [Exit] else Run(t, tokens[1..]);
    var m := ShowMenu(Menu(t));
    var tail := s.actions + rest;
    RunStep(t, tokens);
    ObservationsAppend([m], tail);
    ObservationsAppend(s.actions, rest);
    ObservationsSingle(m);
  }

  /** The trace when the input is already closed. */
  lemma RunClosed(t: Table)
    ensures Run(t, []) == [ShowMenu(Menu(t)), InputClosed]
    ensures Dispatches(Run(t, [])) == []
    ensures UnknownCount(Run(t, [])) == 0
    ensures MenuCount(Run(t, [])) == 1
  {
    ObservationsAppend([ShowMenu(Menu(t))], [InputClosed]);
    ObservationsSingle(ShowMenu(Menu(t)));
    ObservationsSingle(InputClosed);
  }

  /** What one token contributes to the observations. */
  lemma ReactObserved(t: Table, token: string)
    ensures Dispatches(React(t, token).actions) == Requested(t, [token])
    ensures UnknownCount(React(t, token).actions) == Unrecognised(t, [token])
    ensures MenuCount(React(t, token).actions) == 0
  {
    assert [token][1..] == [];
    var acts := React(t, token).actions;
    if |acts| == 1 {
      ObservationsSingle(acts[0]);
      assert acts == [acts[0]];
    }
  }

  /**
   The requests sent are exactly those named by the tokens the loop reads, in
   the order they were typed, each with its entry's verb and path.
   */
  lemma {:induction false} RunDispatches(t: Table, tokens: seq<string>)
    ensures Dispatches(Run(t, tokens)) == Requested(t, Consumed(tokens))
    decreases |tokens|
  {
    if |tokens| == 0 {
      RunClosed(t);
    } else {
      var tok := tokens[0];
      RunStepObserved(t, tokens);
      ReactObserved(t, tok);
      if tok == ExitKey {
        ObservationsSingle(Exit);
      } else {
        RunDispatches(t, tokens[1..]);
        RequestedAppend(t, [tok], Consumed(tokens[1..]));
      }
    }
  }

  lemma ExitInTail(tokens: seq<string>)
    requires |tokens| > 0 && tokens[0] != ExitKey
    ensures ExitKey in tokens <==> ExitKey in tokens[1..]
  {
    assert tokens == [tokens[0]] + tokens[1..];
  }

  lemma {:induction false} RequestedAppend(t: Table, a: seq<string>, b: seq<string>)
    ensures Requested(t, a + b) == Requested(t, a) + Requested(t, b)
    decreases |a|
  {
    if |a| > 0 {
      assert (a + b)[1..] == a[1..] + b;
      RequestedAppend(t, a[1..], b);
    } else {
      assert a + b == b;
    }
  }

  lemma {:induction false} UnrecognisedAppend(t: Table, a: seq<string>, b: seq<string>)
    ensures Unrecognised(t, a + b) == Unrecognised(t, a) + Unrecognised(t, b)
    decreases |a|
  {
    if |a| > 0 {
      assert (a + b)[1..] == a[1..] + b;
      UnrecognisedAppend(t, a[1..], b);
    } else {
      assert a + b == b;
    }
  }

  /** Every token read that is neither a key nor the exit yields exactly one "Unknown command code!". */
  lemma {:induction false} RunUnknowns(t: Table, tokens: seq<string>)
    ensures UnknownCount(Run(t, tokens)) == Unrecognised(t, BeforeExit(tokens))
    decreases |tokens|
  {
    if |tokens| == 0 {
      RunClosed(t);
    } else {
      RunStepObserved(t, tokens);
      ReactObserved(t, tokens[0]);
      if tokens[0] == ExitKey {
        ObservationsSingle(Exit);
      } else {
        RunUnknowns(t, tokens[1..]);
        UnrecognisedAppend(t, [tokens[0]], BeforeExit(tokens[1..]));
      }
    }
  }

  /** True iff every menu shown in the trace is `lines`. */
  predicate MenusAre(trace: seq<Action>, lines: seq<string>) {
    forall i :: 0 <= i < |trace| && trace[i].ShowMenu? ==> trace[i].lines == lines
  }

  /**
   The menu is shown once before every read: as many menus as tokens read,
   plus the one shown before the read that found the input closed.
   */
  lemma {:induction false} RunMenuCount(t: Table, tokens: seq<string>)
    ensures MenuCount(Run(t, tokens)) == |Consumed(tokens)| + (if ExitKey in tokens then 0 else 1)
    decreases |tokens|
  {
    if |tokens| == 0 {
      RunClosed(t);
    } else {
      RunStepObserved(t, tokens);
      ReactObserved(t, tokens[0]);
      if tokens[0] == ExitKey {
        ObservationsSingle(Exit);
        assert ExitKey in tokens;
      } else {
        RunMenuCount(t, tokens[1..]);
        ExitInTail(tokens);
      }
    }
  }

  /** Every menu shown is built from the same, unmodified table. */
  lemma {:induction false} RunMenusUnchanged(t: Table, tokens: seq<string>)
    ensures MenusAre(Run(t, tokens), Menu(t))
    decreases |tokens|
  {
    if |tokens| > 0 {
      RunStep(t, tokens);
      var s := React(t, tokens[0]);
      var rest := if s.stop then [Exit] else Run(t, tokens[1..]);
      if !s.stop {
        RunMenusUnchanged(t, tokens[1..]);
      }
      MenusAreAppend(s.actions, rest, Menu(t));
      MenusAreAppend([ShowMenu(Menu(t))], s.actions + rest, Menu(t));
    }
  }

  lemma MenusAreAppend(a: seq<Action>, b: seq<Action>, lines: seq<string>)
    requires MenusAre(a, lines) && MenusAre(b, lines)
    ensures MenusAre(a + b, lines)
  {
    var c := a + b;
    forall i | 0 <= i < |c| && c[i].ShowMenu?
      ensures c[i].lines == lines
    {
      if i >= |a| {
        assert c[i] == b[i - |a|];
      } else {
        assert c[i] == a[i];
      }
    }
  }

  /** The last action of a non-empty trace. */
  function Last(trace: seq<Action>): Action
    requires |trace| > 0
  {
    trace[|trace| - 1]
  }

  /** True iff a final action can occur only at the last position of the trace. */
  predicate FinalOnlyLast(trace: seq<Action>) {
    forall i :: 0 <= i < |trace| && Final(trace[i]) ==> i == |trace| - 1
  }

  /**
   The loop ends with `Exit` exactly when the exit token is typed, and with
   the closed input otherwise.
   */
  lemma {:induction false} RunLast(t: Table, tokens: seq<string>)
    ensures Last(Run(t, tokens)) == (if ExitKey in tokens then Exit else InputClosed)
    decreases |tokens|
  {
    if |tokens| > 0 {
      RunLastStep(t, tokens);
      if tokens[0] != ExitKey {
        RunLast(t, tokens[1..]);
        ExitInTail(tokens);
      } else {
        assert tokens[0] in tokens;
      }
    }
  }

  /** The last action after one pass of the loop is `Exit`, or the last action of the rest. */
  lemma RunLastStep(t: Table, tokens: seq<string>)
    requires |tokens| > 0
    ensures Last(Run(t, tokens)) == if tokens[0] == ExitKey then Exit else Last(Run(t, tokens[1..]))
  {
    var s := React(t, tokens[0]);
    var rest := if s.stop then [Exit] else Run(t, tokens[1..]);
    var tail := s.actions + rest;
    RunStep(t, tokens);
    LastOfAppend(s.actions, rest);
    LastOfAppend([ShowMenu(Menu(t))], tail);
    assert Last(Run(t, tokens)) == Last(rest);
  }

  /** Nothing follows the action that ends the loop, and no such action comes earlier. */
  lemma {:induction false} RunFinalOnlyLast(t: Table, tokens: seq<string>)
    ensures FinalOnlyLast(Run(t, tokens))
    decreases |tokens|
  {
    if |tokens| > 0 {
      RunStep(t, tokens);
      var s := React(t, tokens[0]);
      var rest := if s.stop then [Exit] else Run(t, tokens[1..]);
      if !s.stop {
        RunFinalOnlyLast(t, tokens[1..]);
      }
      FinalOnlyLastAppend(s.actions, rest);
      FinalOnlyLastAppend([ShowMenu(Menu(t))], s.actions + rest);
    }
  }

  /** Prefixing actions that do not end the loop keeps final actions at the end only. */
  lemma FinalOnlyLastAppend(head: seq<Action>, rest: seq<Action>)
    requires forall a :: a in head ==> !Final(a)
    requires FinalOnlyLast(rest)
    ensures FinalOnlyLast(head + rest)
  {
    var trace := head + rest;
    forall i | 0 <= i < |trace| - 1
      ensures !Final(trace[i])
    {
      if i >= |head| {
        assert trace[i] == rest[i - |head|];
      } else {
        assert trace[i] == head[i] && head[i] in head;
      }
    }
  }

  /**
   With a table that has no entry under "0" (the program's own table), the
   number of requests sent is the number of key tokens typed before the first
   "0".
   */
  lemma DispatchCount(t: Table, tokens: seq<string>)
    requires !HasKey(t, ExitKey)
    ensures |Dispatches(Run(t, tokens))| == |Requested(t, BeforeExit(tokens))|
  {
    RunDispatches(t, tokens);
    ConsumedSplit(tokens);
    if ExitKey in tokens {
      RequestedAppend(t, BeforeExit(tokens), [ExitKey]);
      assert [ExitKey][1..] == [];
      assert Requested(t, [ExitKey]) == [];
    }
  }

  /** With no entry under "0", typing "0" shows the menu, then ends the loop without sending anything. */
  lemma ExitSendsNothing(t: Table, rest: seq<string>)
    requires !HasKey(t, ExitKey)
    ensures Run(t, [ExitKey] + rest) == [ShowMenu(Menu(t)), Exit]
  {
    assert ([ExitKey] + rest)[0] == ExitKey;
  }

  /** With distinct keys, looking up an entry's key finds that entry. */
  lemma LookupEntry(t: Table, i: int)
    requires DistinctKeys(t)
    requires 0 <= i < |t|
    ensures Lookup(t, t[i].0) == Some(t[i].1)
  {
    assert HasKey(t, t[i].0);
    var r := Lookup(t, t[i].0).value;
    var j :| 0 <= j < |t| && t[j] == (t[i].0, r);
    assert t[j].0 == t[i].0;
  }

  /** A token that names an entry sends that entry's request and the loop goes on. */
  lemma KeySendsRequest(t: Table, i: int, rest: seq<string>)
    requires DistinctKeys(t)
    requires 0 <= i < |t| && t[i].0 != ExitKey
    ensures Run(t, [t[i].0] + rest) ==
      [ShowMenu(Menu(t)), Dispatch(TargetHost, TargetPort, t[i].1.verb, t[i].1.path)] + Run(t, rest)
  {
    var tokens := [t[i].0] + rest;
    assert tokens[0] == t[i].0 && tokens[1..] == rest;
    LookupEntry(t, i);
    assert React(t, t[i].0).actions == [Dispatch(TargetHost, TargetPort, t[i].1.verb, t[i].1.path)];
  }

  /** Any other token reports an unknown command once and the loop goes on. */
  lemma OtherTokenIsUnknown(t: Table, token: string, rest: seq<string>)
    requires !HasKey(t, token) && token != ExitKey
    ensures Run(t, [token] + rest) == [ShowMenu(Menu(t)), Unknown] + Run(t, rest)
  {
    var tokens := [token] + rest;
    assert tokens[0] == token && tokens[1..] == rest;
  }

  // ---------------------------------------------------------------------------
  // The program's own table
  // ---------------------------------------------------------------------------

  /** The literal table: "1" sends DELETE /test, "2" sends POST /test, and nothing else is a key. */
  lemma RequestsTableWellFormed()
    ensures DistinctKeys(Requests)
    ensures !HasKey(Requests, ExitKey)
    ensures Lookup(Requests, "1") == Some(Request("send del", "DELETE", "/test"))
    ensures Lookup(Requests, "2") == Some(Request("send post", "POST", "/test"))
    ensures forall key :: HasKey(Requests, key) <==> key == "1" || key == "2"
  {
  }

  lemma RequestsMenu()
    ensures Menu(Requests) == ["0: exit application", "1: send del", "2: send post"]
  {
    assert EntryLine(Requests[0]) == "1: send del";
    assert EntryLine(Requests[1]) == "2: send post";
  }

  /** Typing "1" then "0" sends one DELETE to /test and exits. */
  lemma DeleteThenExit()
    ensures var m := ShowMenu(Menu(Requests));
      Run(Requests, ["1", "0"]) == [m, Dispatch("localhost", 8888, "DELETE", "/test"), m, Exit]
  {
    RequestsTableWellFormed();
    KeySendsRequest(Requests, 0, ["0"]);
    ExitSendsNothing(Requests, []);
    assert ["1", "0"] == ["1"] + ["0"];
    assert ["0"] == [ExitKey] + [];
  }

  /** Typing "9" then "0" reports one unknown command and exits. */
  lemma UnknownThenExit()
    ensures var m := ShowMenu(Menu(Requests));
      Run(Requests, ["9", "0"]) == [m, Unknown, m, Exit]
  {
    RequestsTableWellFormed();
    assert !HasKey(Requests, "9");
    OtherTokenIsUnknown(Requests, "9", ["0"]);
    ExitSendsNothing(Requests, []);
    assert ["9", "0"] == ["9"] + ["0"];
    assert ["0"] == [ExitKey] + [];
  }
}
