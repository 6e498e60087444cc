/**
 The interactive command loop of prototype.py: a fixed, ordered table of
 requests, the menu built from it, and the loop that reads one command token
 at a time. The loop is a pure function from the tokens the operator types
 to the trace of what the program does; the HTTP exchange itself is an
 opaque `Dispatch` action.
 */
module Prototype {
  import opened Values

  /** One entry of the request table: a menu title, an HTTP verb (the `type` field) and a path. */
  datatype Request = Request(title: string, verb: string, path: string)

  /** The request table: command keys with their requests, in insertion order. */
  type Table = seq<(string, Request)>

  /** The table the program is written with. */
  const Requests: Table := [
    ("1", Request("send del", "DELETE", "/test")),
    ("2", Request("send post", "POST", "/test"))
  ]

  /** The token that ends the loop. */
  const ExitKey: string := "0"

  /** The first line of every menu. */
  const ExitLine: string := "0: exit application"

  /** Every request goes to this fixed server, not to the configured one. */
  const TargetHost: string := "localhost"
  const TargetPort: int := 8888

  /** Keys are unique, as in a Python dict. */
  predicate DistinctKeys(t: Table) {
    forall i, j :: 0 <= i < j < |t| ==> t[i].0 != t[j].0
  }

  predicate HasKey(t: Table, key: string) {
    exists i :: 0 <= i < |t| && t[i].0 == key
  }

  /** The request stored under `key` (`key in requests`, then `requests[key]`). */
  function Lookup(t: Table, key: string): (r: Option<Request>)
    ensures r.Some? <==> HasKey(t, key)
    ensures r.Some? ==> exists i :: 0 <= i < |t| && t[i] == (key, r.value)
  {
    if |t| == 0 then None
    else if t[0].0 == key then Some(t[0].1)
    else
      var r := Lookup(t[1..], key);
      if r.Some? then
        ghost var i :| 0 <= i < |t| - 1 && t[1..][i] == (key, r.value);
        assert t[i + 1] == (key, r.value);
        r
      else
        assert forall i :: 1 <= i < |t| ==> t[i] == t[1..][i - 1];
        r
  }

  /** The menu line of one table entry: `'%s: %s' % (key, title)`. */
  function EntryLine(e: (string, Request)): string {
    e.0 + ": " + e.1.title
  }

  function EntryLines(t: Table): (lines: seq<string>)
    ensures |lines| == |t|
    ensures forall i :: 0 <= i < |t| ==> lines[i] == EntryLine(t[i])
  {
    if |t| == 0 then [] else [EntryLine(t[0])] + EntryLines(t[1..])
  }

  /** `input_help`: the exit line followed by one line per entry, in table order. */
  function Menu(t: Table): (lines: seq<string>)
    ensures |lines| == |t| + 1
    ensures lines[0] == ExitLine
    ensures forall i :: 0 <= i < |t| ==> lines[i + 1] == t[i].0 + ": " + t[i].1.title
  {
    [ExitLine] + EntryLines(t)
  }

  /** What the program does, as seen from outside. */
  datatype Action =
    | ShowMenu(lines: seq<string>)
    | Dispatch(host: string, port: int, verb: string, path: string)
    | Unknown
    | Exit
    | InputClosed

  /** The effect of one token read inside the loop, and whether the loop stops after it. */
  datatype Step = Step(actions: seq<Action>, stop: bool)

  /** The actions that end the loop. */
  predicate Final(a: Action) {
    a == Exit || a == InputClosed
  }

  /**
   One pass of the loop body after the read: a table key sends its request;
   any other token but the exit token reports an unknown command. The loop
   condition then stops on the exit token.
   */
  function React(t: Table, token: string): (s: Step)
    ensures s.stop <==> token == ExitKey
    ensures |s.actions| <= 1
    ensures forall a :: a in s.actions ==> a.Dispatch? || a == Unknown
  {
    var acts :=
      match Lookup(t, token)
      case Some(r) => [Dispatch(TargetHost, TargetPort, r.verb, r.path)]
      case None => if token != ExitKey then [Unknown] else [];
    Step(acts, token == ExitKey)
  }

  /**
   The three cases of a token: a key sends the request of the entry stored
   under it, the exit token does nothing (unless it is itself a key), and any
   other token is reported as unknown.
   */
  lemma ReactCases(t: Table, token: string)
    ensures HasKey(t, token) ==>
      exists i :: 0 <= i < |t| && t[i].0 == token &&
        React(t, token).actions == [Dispatch(TargetHost, TargetPort, t[i].1.verb, t[i].1.path)]
    ensures !HasKey(t, token) && token != ExitKey ==> React(t, token).actions == [Unknown]
    ensures !HasKey(t, token) && token == ExitKey ==> React(t, token).actions == []
  {
  }

  lemma LastOfAppend(a: seq<Action>, b: seq<Action>)
    requires |b| > 0
    ensures |a + b| > 0 && (a + b)[|a + b| - 1] == b[|b| - 1]
  {
  }

  /**
   The whole loop: show the menu, read a token, react, and go round again
   until the exit token. Running out of input ends the trace with
   `InputClosed` (Python's `input` raises `EOFError`, which nothing catches).
   */
  function Run(t: Table, tokens: seq<string>): (trace: seq<Action>)
    decreases |tokens|
  {
    if |tokens| == 0 then
      [ShowMenu(Menu(t)), InputClosed]
    else
      var s := React(t, tokens[0]);
      var rest := if s.stop then [Exit] else Run(t, tokens[1..]);
      [ShowMenu(Menu(t))] + (s.actions + rest)
  }

  /** Every trace opens with the menu and ends with an action that ends the loop. */
  lemma {:induction false} RunShape(t: Table, tokens: seq<string>)
    ensures var trace := Run(t, tokens);
      && |trace| >= 2
      && trace[0] == ShowMenu(Menu(t))
      && Final(trace[|trace| - 1])
    decreases |tokens|
  {
    if |tokens| > 0 {
      var s := React(t, tokens[0]);
      var rest := if s.stop then [Exit] else Run(t, tokens[1..]);
      if !s.stop {
        RunShape(t, tokens[1..]);
      }
      LastOfAppend(s.actions, rest);
      LastOfAppend([ShowMenu(Menu(t))], s.actions + rest);
    }
  }
}
