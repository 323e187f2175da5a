/** Command bursts of the screen service (screen.c): a request opens a command, and the
  requests that follow are its arguments.  Only the owner of the display may send them. */
module ScreenSpec {
  import opened Common
  import opened ProcSpec
  import opened Permissions

  const DRIVERTYPE_DISPLAY: nat := 1
  const SCREENUAPI_CLEARSCREEN: nat := 0
  const SCREENUAPI_PUTPIXEL: nat := 1
  const MAXARGS_CLEARSCREEN: nat := 1
  const MAXARGS_PUTPIXEL: nat := 3

  datatype Status = UapiOk | PermissionDenied | CmdburstContinue

  /** What is asked of the framebuffer; the arguments are cut to uint32_t. */
  datatype Op = Clear(color: nat) | Put(x: nat, y: nat, color: nat)

  /** The static variables of screen_uapi and process_req. */
  datatype Screen = Screen(bursting: bool, saved: nat, index: nat, x: nat, y: nat, color: nat)

  const IDLE: Screen := Screen(false, 0, 0, 0, 0, 0)

  predicate Resting(s: Screen) { !s.bursting && s.index == 0 }

  function Cut(v: nat): nat { v % TWO_TO_THE_32 }

  /** process_req, with the operation it performs. */
  function ProcessReq(s: Screen, req: nat): (Screen, seq<Op>, Status) {
    if s.saved == SCREENUAPI_CLEARSCREEN then
      var s1 := if s.index == 0 then s.(color := req) else s;
      if s.index + 1 >= MAXARGS_CLEARSCREEN then (s1.(index := 0), [Clear(Cut(s1.color))], UapiOk)
      else (s1.(index := s.index + 1), [], CmdburstContinue)
    else if s.saved == SCREENUAPI_PUTPIXEL then
      var s1 := if s.index == 0 then s.(x := req) else if s.index == 1 then s.(y := req)
                else if s.index == 2 then s.(color := req) else s;
      if s.index + 1 >= MAXARGS_PUTPIXEL then (s1.(index := 0), [Put(Cut(s1.x), Cut(s1.y), Cut(s1.color))], UapiOk)
      else (s1.(index := s.index + 1), [], CmdburstContinue)
    else (s, [], CmdburstContinue)
  }

  /** screen_uapi for a process that owns the display. */
  function Feed(s: Screen, req: nat): (Screen, seq<Op>, Status) {
    if s.bursting then
      var (s1, ops, status) := ProcessReq(s, req);
      (if status != CmdburstContinue then s1.(saved := 0, bursting := false) else s1, ops, status)
    else if req == SCREENUAPI_CLEARSCREEN || req == SCREENUAPI_PUTPIXEL then
      (s.(saved := req, bursting := true), [], UapiOk)
    else (s, [], UapiOk)
  }

  function FeedAll(s: Screen, reqs: seq<nat>): (Screen, seq<Op>)
    decreases |reqs|
  {
    if reqs == [] then (s, [])
    else
      var (s1, ops, _) := Feed(s, reqs[0]);
      var (s2, more) := FeedAll(s1, reqs[1..]);
      (s2, ops + more)
  }

  // ----- what a request stream means ------------------------------------------------------

  /** A reading of a request stream that knows nothing of the machine's state. */
  function Decode(reqs: seq<nat>): seq<Op> {
    if reqs == [] then []
    else if reqs[0] == SCREENUAPI_CLEARSCREEN then
      if |reqs| < 2 then [] else [Clear(Cut(reqs[1]))] + Decode(reqs[2..])
    else if reqs[0] == SCREENUAPI_PUTPIXEL then
      if |reqs| < 4 then [] else [Put(Cut(reqs[1]), Cut(reqs[2]), Cut(reqs[3]))] + Decode(reqs[4..])
    else Decode(reqs[1..])
  }

  function EncodeOp(op: Op): seq<nat> {
    match op
    case Clear(color) => [SCREENUAPI_CLEARSCREEN, color]
    case Put(x, y, color) => [SCREENUAPI_PUTPIXEL, x, y, color]
  }

  function Encode(ops: seq<Op>): seq<nat> {
    if ops == [] then [] else EncodeOp(ops[0]) + Encode(ops[1..])
  }

  lemma {:induction false} FeedAllAppend(s: Screen, a: seq<nat>, b: seq<nat>)
    ensures var (s1, ops) := FeedAll(s, a);
      FeedAll(s, a + b) == (FeedAll(s1, b).0, ops + FeedAll(s1, b).1)
    decreases |a|
  {
    if a == [] {
      assert a + b == b;
      assert [] + FeedAll(s, b).1 == FeedAll(s, b).1;
    } else {
      var (s1, ops, _) := Feed(s, a[0]);
      FeedAllAppend(s1, a[1..], b);
      assert (a + b)[1..] == a[1..] + b;
      var (s2, more) := FeedAll(s1, a[1..]);
      assert ops + (more + FeedAll(s2, b).1) == ops + more + FeedAll(s2, b).1;
    }
  }

  lemma FeedCommand(s: Screen, op: Op)
    requires Resting(s)
    ensures var (s', ops) := FeedAll(s, EncodeOp(op));
      Resting(s') &&
      ops == (match op case Clear(c) => [Clear(Cut(c))] case Put(x, y, c) => [Put(Cut(x), Cut(y), Cut(c))])
  {
    match op
    case Clear(c) =>
      var s1 := Feed(s, SCREENUAPI_CLEARSCREEN).0;
      assert [SCREENUAPI_CLEARSCREEN, c][1..] == [c];
      assert FeedAll(s1, [c]).1 == [Clear(Cut(c))];
    case Put(x, y, c) =>
      var s1 := Feed(s, SCREENUAPI_PUTPIXEL).0;
      var s2 := Feed(s1, x).0;
      var s3 := Feed(s2, y).0;
      assert [SCREENUAPI_PUTPIXEL, x, y, c][1..] == [x, y, c];
      assert [x, y, c][1..] == [y, c];
      assert [y, c][1..] == [c];
      assert FeedAll(s3, [c]).1 == [Put(Cut(x), Cut(y), Cut(c))];
      assert FeedAll(s2, [y, c]).1 == FeedAll(s3, [c]).1;
      assert FeedAll(s1, [x, y, c]).1 == FeedAll(s2, [y, c]).1;
  }

  /** An argument list that breaks off performs nothing. */
  lemma FeedUnfinished(s: Screen, reqs: seq<nat>)
    requires Resting(s) && 0 < |reqs|
    requires (reqs[0] == SCREENUAPI_CLEARSCREEN && |reqs| < 2) || (reqs[0] == SCREENUAPI_PUTPIXEL && |reqs| < 4)
    ensures FeedAll(s, reqs).1 == []
  {
    var s1 := Feed(s, reqs[0]).0;
    if |reqs| > 1 {
      var s2 := Feed(s1, reqs[1]).0;
      if |reqs| > 2 {
        var s3 := Feed(s2, reqs[2]).0;
        assert FeedAll(s3, reqs[1..][1..][1..]) == (s3, []);
        assert FeedAll(s2, reqs[1..][1..]).1 == [];
      } else {
        assert FeedAll(s2, reqs[1..][1..]) == (s2, []);
      }
      assert FeedAll(s1, reqs[1..]).1 == [];
    }
  }

  /** The state machine performs exactly what the stream means, for every stream. */
  lemma {:induction false} FeedDecodes(s: Screen, reqs: seq<nat>)
    requires Resting(s)
    ensures FeedAll(s, reqs).1 == Decode(reqs)
    decreases |reqs|
  {
    if reqs == [] {
    } else if reqs[0] == SCREENUAPI_CLEARSCREEN && |reqs| >= 2 {
      FeedCommand(s, Clear(reqs[1]));
      assert reqs == [reqs[0], reqs[1]] + reqs[2..];
      FeedAllAppend(s, EncodeOp(Clear(reqs[1])), reqs[2..]);
      FeedDecodes(FeedAll(s, EncodeOp(Clear(reqs[1]))).0, reqs[2..]);
    } else if reqs[0] == SCREENUAPI_PUTPIXEL && |reqs| >= 4 {
      var put := Put(reqs[1], reqs[2], reqs[3]);
      FeedCommand(s, put);
      assert reqs == [reqs[0], reqs[1], reqs[2], reqs[3]] + reqs[4..];
      FeedAllAppend(s, EncodeOp(put), reqs[4..]);
      FeedDecodes(FeedAll(s, EncodeOp(put)).0, reqs[4..]);
    } else if reqs[0] == SCREENUAPI_CLEARSCREEN || reqs[0] == SCREENUAPI_PUTPIXEL {
      FeedUnfinished(s, reqs);
    } else {
      FeedDecodes(s, reqs[1..]);
    }
  }

  // ----- what the caller is told ------------------------------------------------------------

  /** The answers to a stream of requests. */
  function Answers(s: Screen, reqs: seq<nat>): (r: seq<Status>)
    ensures |r| == |reqs|
    decreases |reqs|
  {
    if reqs == [] then [] else [Feed(s, reqs[0]).2] + Answers(Feed(s, reqs[0]).0, reqs[1..])
  }

  /** What they must be: an argument after which another is needed is answered with
    CmdburstContinue, and every other request with UapiOk. */
  function Expected(reqs: seq<nat>): seq<Status> {
    if reqs == [] then []
    else if reqs[0] == SCREENUAPI_CLEARSCREEN && |reqs| >= 2 then [UapiOk, UapiOk] + Expected(reqs[2..])
    else if reqs[0] != SCREENUAPI_PUTPIXEL || |reqs| == 1 then [UapiOk] + Expected(reqs[1..])
    else if |reqs| < 4 then [UapiOk] + seq(|reqs| - 1, _ => CmdburstContinue)
    else [UapiOk, CmdburstContinue, CmdburstContinue, UapiOk] + Expected(reqs[4..])
  }

  lemma {:induction false} AnswersAppend(s: Screen, a: seq<nat>, b: seq<nat>)
    ensures Answers(s, a + b) == Answers(s, a) + Answers(FeedAll(s, a).0, b)
    decreases |a|
  {
    if a == [] {
      assert a + b == b;
    } else {
      AnswersAppend(Feed(s, a[0]).0, a[1..], b);
      assert (a + b)[1..] == a[1..] + b;
    }
  }

  lemma AnswersStep(s: Screen, reqs: seq<nat>)
    requires reqs != []
    ensures Answers(s, reqs) == [Feed(s, reqs[0]).2] + Answers(Feed(s, reqs[0]).0, reqs[1..])
  {
  }

  lemma CommandAnswers(s: Screen, op: Op)
    requires Resting(s)
    ensures Answers(s, EncodeOp(op)) ==
      if op.Clear? then [UapiOk, UapiOk] else [UapiOk, CmdburstContinue, CmdburstContinue, UapiOk]
  {
    var reqs := EncodeOp(op);
    var s1 := Feed(s, reqs[0]).0;
    AnswersStep(s, reqs);
    AnswersStep(s1, reqs[1..]);
    assert reqs[1..][0] == reqs[1] && reqs[1..][1..] == reqs[2..];
    if op.Put? {
      var s2 := Feed(s1, reqs[1]).0;
      AnswersStep(s2, reqs[2..]);
      AnswersStep(Feed(s2, reqs[2]).0, reqs[3..]);
      assert reqs[2..][0] == reqs[2] && reqs[2..][1..] == reqs[3..] && reqs[3..][0] == reqs[3] && reqs[3..][1..] == [];
    }
  }

  lemma UnfinishedAnswers(s: Screen, reqs: seq<nat>)
    requires Resting(s) && 0 < |reqs| < 4 && reqs[0] == SCREENUAPI_PUTPIXEL
    ensures Answers(s, reqs) == [UapiOk] + seq(|reqs| - 1, _ => CmdburstContinue)
  {
    AnswersStep(s, reqs);
    if |reqs| > 1 {
      var s1 := Feed(s, reqs[0]).0;
      AnswersStep(s1, reqs[1..]);
      if |reqs| > 2 { AnswersStep(Feed(s1, reqs[1]).0, reqs[1..][1..]); }
    }
  }

  /** The caller is asked for more exactly while arguments are missing, for every stream. */
  lemma {:induction false} AnswersAreExpected(s: Screen, reqs: seq<nat>)
    requires Resting(s)
    ensures Answers(s, reqs) == Expected(reqs)
    decreases |reqs|
  {
    if reqs == [] {
    } else if reqs[0] == SCREENUAPI_CLEARSCREEN && |reqs| >= 2 {
      CommandRead(s, Clear(reqs[1]), reqs, 2);
      AnswersAreExpected(FeedAll(s, reqs[..2]).0, reqs[2..]);
    } else if reqs[0] != SCREENUAPI_PUTPIXEL || |reqs| == 1 {
      AnswersStep(s, reqs);
      if |reqs| > 1 { AnswersAreExpected(s, reqs[1..]); }
    } else if |reqs| < 4 {
      UnfinishedAnswers(s, reqs);
    } else {
      CommandRead(s, Put(reqs[1], reqs[2], reqs[3]), reqs, 4);
      AnswersAreExpected(FeedAll(s, reqs[..4]).0, reqs[4..]);
    }
  }

  /** A stream that starts with a whole command. */
  lemma CommandRead(s: Screen, op: Op, reqs: seq<nat>, n: nat)
    requires Resting(s) && n <= |reqs| && reqs[..n] == EncodeOp(op)
    ensures Resting(FeedAll(s, reqs[..n]).0)
    ensures Answers(s, reqs) ==
      (if op.Clear? then [UapiOk, UapiOk] else [UapiOk, CmdburstContinue, CmdburstContinue, UapiOk])
      + Answers(FeedAll(s, reqs[..n]).0, reqs[n..])
  {
    FeedCommand(s, op);
    CommandAnswers(s, op);
    AnswersAppend(s, reqs[..n], reqs[n..]);
    assert reqs == reqs[..n] + reqs[n..];
  }

  /** An argument is cut to its low 32 bits. */
  lemma CutIs(v: nat)
    ensures Cut(v) < TWO_TO_THE_32 && (v - Cut(v)) % TWO_TO_THE_32 == 0
  {
  }

  predicate InWords(op: Op) {
    match op
    case Clear(c) => c < TWO_TO_THE_32
    case Put(x, y, c) => x < TWO_TO_THE_32 && y < TWO_TO_THE_32 && c < TWO_TO_THE_32
  }

  /** Sending the encoding of any command list performs exactly that list and comes to rest. */
  lemma {:induction false} EncodedCommandsPerformed(s: Screen, ops: seq<Op>)
    requires Resting(s) && forall i :: 0 <= i < |ops| ==> InWords(ops[i])
    ensures Resting(FeedAll(s, Encode(ops)).0) && FeedAll(s, Encode(ops)).1 == ops
    decreases |ops|
  {
    if ops == [] {
    } else {
      FeedCommand(s, ops[0]);
      FeedAllAppend(s, EncodeOp(ops[0]), Encode(ops[1..]));
      assert InWords(ops[0]);
      EncodedCommandsPerformed(FeedAll(s, EncodeOp(ops[0])).0, ops[1..]);
    }
  }

  // ----- requests by many processes -------------------------------------------------------

  /** The machine, the screen service, the operations performed so far, and the requests that
    got past verify_drvmaster, each with its sender. */
  datatype Display = Display(k: KState, screen: Screen, performed: seq<Op>, passed: seq<(nat, nat)>)

  datatype Action = Kernel(step: Step) | Request(req: nat)

  function Act(d: Display, a: Action): Display
    requires d.k.halted || Shape(d.k)
  {
    match a
    case Kernel(step) => d.(k := Next(d.k, step))
    case Request(req) =>
      if d.k.halted || d.k.curNext.Some? || !Owns(d.k, d.k.cur, DRIVERTYPE_DISPLAY) then d
      else
        var (screen, ops, _) := Feed(d.screen, req);
        d.(screen := screen, performed := d.performed + ops, passed := d.passed + [(d.k.cur, req)])
  }

  lemma ActShape(d: Display, a: Action)
    requires d.k.halted || Shape(d.k)
    ensures Act(d, a).k.halted || Shape(Act(d, a).k)
  {
    if a.Kernel? { RoundRobin.NextShape(d.k, a.step); }
  }

  ghost function ActAll(d: Display, actions: seq<Action>): Display
    requires d.k.halted || Shape(d.k)
    decreases |actions|
  {
    if actions == [] then d else (ActShape(d, actions[0]); ActAll(Act(d, actions[0]), actions[1..]))
  }

  function Requests(passed: seq<(nat, nat)>): seq<nat> {
    seq(|passed|, i requires 0 <= i < |passed| => passed[i].1)
  }

  ghost predicate DisplayOk(d: Display, start: Screen) {
    && Exclusive(d.k)
    && FeedAll(start, Requests(d.passed)) == (d.screen, d.performed)
    && (forall i :: 0 <= i < |d.passed| ==>
          d.passed[i].0 < |d.k.nodes| && Owns(d.k, d.passed[i].0, DRIVERTYPE_DISPLAY))
  }

  lemma ActOk(d: Display, start: Screen, a: Action)
    requires d.k.halted || Shape(d.k)
    requires DisplayOk(d, start)
    ensures DisplayOk(Act(d, a), start)
  {
    var d' := Act(d, a);
    match a
    case Kernel(step) => if !d.k.halted { NextExclusive(d.k, step); }
    case Request(req) =>
      if d'.passed != d.passed {
        assert Requests(d'.passed) == Requests(d.passed) + [req];
        FeedAllAppend(start, Requests(d.passed), [req]);
        assert Feed(d.screen, req).1 + [] == Feed(d.screen, req).1;
        assert FeedAll(d.screen, [req]) == (d'.screen, Feed(d.screen, req).1);
      }
  }

  /** Whatever the processes do and whoever asks, the screen executes the commands of one
    process only, and exactly those that its own requests spell out. */
  lemma {:induction false} OwnerAloneDraws(d: Display, start: Screen, actions: seq<Action>)
    requires d.k.halted || Shape(d.k)
    requires Resting(start) && DisplayOk(d, start)
    ensures var r := ActAll(d, actions);
      && r.performed == Decode(Requests(r.passed))
      && forall i, j :: 0 <= i < |r.passed| && 0 <= j < |r.passed| ==> r.passed[i].0 == r.passed[j].0
    decreases |actions|
  {
    if actions == [] {
      FeedDecodes(start, Requests(d.passed));
    } else {
      ActShape(d, actions[0]);
      ActOk(d, start, actions[0]);
      OwnerAloneDraws(Act(d, actions[0]), start, actions[1..]);
    }
  }

  /** Nothing has happened yet after proc_init. */
  lemma DisplayAtBoot(context: Context)
    ensures DisplayOk(Display(Init(context), IDLE, [], []), IDLE)
  {
  }
}
