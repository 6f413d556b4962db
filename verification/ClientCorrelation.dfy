/** Which pending request a response answers: by id, or, for an unmatched failure, only when there is one candidate. */
module ClientCorrelation {
  import opened Collections
  import opened Options

  // Request ids are "req_1", "req_2", ...; a response can also carry any other id, or none.
  datatype Id = Req(n: nat) | Other(text: string)

  datatype Response = Response(id: Id, command: string, success: bool, error: string, data: Option<string>)

  datatype Result =
    | Raw(json: string)
    | CommandError(command: string, message: string)
    | Mismatch(expected: string, received: string)
    | Closed(reason: string)

  // The pending requests: their numbers and commands.
  type Table = map<nat, string>

  function SameCommand(pending: Table, command: string): set<nat> {
    set n | n in pending && pending[n] == command
  }

  /** The only request with the command of the failure, or else, for a parse failure, the only request there is. */
  ghost predicate Candidate(pending: Table, command: string, n: nat) {
    || SameCommand(pending, command) == {n}
    || (SameCommand(pending, command) == {} && command == "parse" && pending.Keys == {n})
  }

  ghost predicate Blamed(pending: Table, command: string, m: Option<nat>) {
    match m
    case Some(n) => Candidate(pending, command, n)
    case None => forall n :: !Candidate(pending, command, n)
  }

  /** `m` is the request this response answers. */
  ghost predicate Answers(pending: Table, response: Response, m: Option<nat>) {
    if response.id.Req? && response.id.n in pending then m == Some(response.id.n)
    else if response.success then m == None
    else Blamed(pending, response.command, m)
  }

  /** No order of visiting the table can make a difference. */
  lemma {:induction false} OneAnswer(pending: Table, response: Response, m1: Option<nat>, m2: Option<nat>)
    requires Answers(pending, response, m1) && Answers(pending, response, m2)
    ensures m1 == m2
  {
    forall a, b | Candidate(pending, response.command, a) && Candidate(pending, response.command, b) ensures a == b {
      assert a in {a} && b in {b};
    }
  }

  /** An unmatched failure reaches a request exactly when there is one candidate to reach. */
  lemma {:induction false} ReachesOnlyCandidate(pending: Table, response: Response, m: Option<nat>)
    requires Answers(pending, response, m) && !response.success && !(response.id.Req? && response.id.n in pending)
    ensures var same := SameCommand(pending, response.command);
      m.Some? <==> |same| == 1 || (same == {} && response.command == "parse" && |pending| == 1)
    ensures m.Some? ==> m.value in pending
  {
    var same := SameCommand(pending, response.command);
    if |same| == 1 {
      SingleElement(same);
      var n: nat :| same == {n};
      assert Candidate(pending, response.command, n);
    }
    if same == {} && response.command == "parse" && |pending| == 1 {
      assert |pending.Keys| == 1;
      SingleElement(pending.Keys);
      var n: nat :| pending.Keys == {n};
      assert Candidate(pending, response.command, n);
    }
    if m.Some? {
      assert m.value in {m.value};
      if same != {m.value} {
        assert |pending.Keys| == 1;
      }
    }
  }

  lemma {:induction false} SingleElement(s: set<nat>)
    requires |s| == 1
    ensures exists n: nat :: s == {n}
  {
    var n: nat :| n in s;
    assert |s - {n}| == 0;
    assert s == {n};
  }

  lemma {:induction false} TwoElements(s: set<nat>, a: nat, b: nat)
    requires a in s && b in s && a != b
    ensures |s| >= 2 && forall n :: s != {n}
  {
    assert |s - {a}| >= 1;
    assert forall n :: a in {n} && b in {n} ==> a == b;
  }

  /** What the scan keeps: the only request with the command so far, unless there were two. */
  ghost predicate Scanned(pending: Table, command: string, todo: set<nat>, m: Option<nat>) {
    SameCommand(pending, command) - todo == if m.Some? then {m.value} else {}
  }

  lemma {:induction false} ScanNext(pending: Table, command: string, todo: set<nat>, m: Option<nat>, id: nat)
    requires Scanned(pending, command, todo, m) && id in todo && todo <= pending.Keys
    ensures pending[id] != command ==> Scanned(pending, command, todo - {id}, m)
    ensures pending[id] == command && m.None? ==> Scanned(pending, command, todo - {id}, Some(id))
    ensures pending[id] == command && m.Some? ==> |SameCommand(pending, command)| >= 2
  {
    var same := SameCommand(pending, command);
    assert same - (todo - {id}) == same - todo + if pending[id] == command then {id} else {};
    if pending[id] == command && m.Some? {
      assert m.value in same - todo;
      TwoElements(same, m.value, id);
    }
  }

  /** Goes through the table, in whatever order it yields its entries, and stops at the second match. */
  method ScanTable(pending: Table, command: string) returns (m: Option<nat>)
    ensures m.Some? ==> SameCommand(pending, command) == {m.value}
    ensures m.None? ==> |SameCommand(pending, command)| != 1
  {
    m := None;
    var todo := pending.Keys;
    while todo != {}
      invariant todo <= pending.Keys && Scanned(pending, command, todo, m)
      decreases todo
    {
      var id :| id in todo;
      ScanNext(pending, command, todo, m, id);
      if pending[id] == command {
        if m.Some? {
          m := None;
          return;
        }
        m := Some(id);
      }
      todo := todo - {id};
    }
    assert SameCommand(pending, command) - {} == SameCommand(pending, command);
  }

  lemma {:induction false} ScanIsBlame(pending: Table, command: string, m: Option<nat>)
    requires m.Some? ==> SameCommand(pending, command) == {m.value}
    requires m.None? ==> |SameCommand(pending, command)| != 1
    ensures m.Some? || command != "parse" || |pending| != 1 ==> Blamed(pending, command, m)
    ensures m.None? && command == "parse" && |pending| == 1 ==> forall n :: n in pending ==> Blamed(pending, command, Some(n))
  {
    assert |pending| == |pending.Keys|;
    assert forall n: nat :: |{n}| == 1;
    if m.None? && command == "parse" && |pending| == 1 {
      SingleElement(pending.Keys);
      SubsetSize(SameCommand(pending, command), pending.Keys);
    }
  }

  method FindMatch(pending: Table, command: string) returns (m: Option<nat>)
    ensures Blamed(pending, command, m)
  {
    m := ScanTable(pending, command);
    ScanIsBlame(pending, command, m);
    if m.None? && command == "parse" && |pending| == 1 {
      assert |pending.Keys| == 1;
      var id :| id in pending.Keys;
      m := Some(id);
    }
  }

  /** What the waiting caller gets. */
  function ResultFor(command: string, response: Response): Result {
    if command != response.command then Mismatch(command, response.command)
    else if !response.success then CommandError(response.command, response.error)
    else if response.data.Some? then Raw(response.data.value)
    else Raw("{}")
  }

  /** The parse fallback never reports the failure itself: the command it finds is another one. */
  lemma {:induction false} ParseFallbackMismatches(pending: Table, response: Response, n: nat)
    requires Answers(pending, response, Some(n)) && n in pending
    requires !response.success && !(response.id.Req? && response.id.n in pending)
    ensures ResultFor(pending[n], response).Mismatch? <==> SameCommand(pending, response.command) == {}
    ensures ResultFor(pending[n], response).CommandError? <==> SameCommand(pending, response.command) == {n}
  {
    assert n in {n};
    if SameCommand(pending, response.command) == {n} {
      assert n in SameCommand(pending, response.command);
    }
  }
}
