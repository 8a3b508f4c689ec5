/**
 * An actor that carries out its queue. The server's position (async) runs ahead of the displayed one (tile):
 * it moves as soon as a command arrives, the displayed one only when the move is finished.
 */
module CommandRuns {
  import opened CommandSpec

  datatype State = State(
    queue: Queue, tile: Tile, async: Tile, lastCommand: Cmd, moving: bool, busy: bool,
    aimMode: int, sitting: bool, fighting: bool)

  /** What decides about the start of a command and is not part of the model. */
  datatype World = World(playingEmote: bool, enhanced: bool, bonesRotated: bool, reloads: bool)

  /** The change of the server's position when a command arrives. */
  function AsyncStep(c: Cmd): Tile {
    var y := if c in {20, 30, 21, 31, 27, 37} then 1 else if c in {23, 33, 24, 34, 25, 35} then -1 else 0;
    var x := if c in {21, 31, 22, 32, 23, 33} then 1 else if c in {25, 35, 26, 36, 27, 37} then -1 else 0;
    Tile(x, y)
  }

  /** add_command_to_actor. */
  function Receive(s: State, c: Cmd): State {
    if IsShotInfo(c) then s else s.(queue := Received(s.queue, c), async := Plus(s.async, AsyncStep(c)))
  }

  function Head(q: Queue): Cmd {
    if q == [] then NOTHING else q[0]
  }

  function Tail(q: Queue): Queue {
    if q == [] then [] else q[1..]
  }

  /** A range pose is given up for a command that does not go with it. */
  function AimFor(s: State, w: World): int {
    var c := Head(s.queue);
    if w.enhanced && s.aimMode == 1 && !(ENTER_AIM_MODE <= c <= MISSILE_CRITICAL) && !IsTurn(c) then 0 else s.aimMode
  }

  /** Starting the first command of the queue. */
  function Start(s: State, w: World): State {
    var c, aim := Head(s.queue), AimFor(s, w);
    if c == WAIT_CMD then s.(aimMode := aim) else
      var noAction := aim != 1 && (c == AIM_MODE_FIRE || (c == LEAVE_AIM_MODE && !w.bonesRotated));
      var again := c == ENTER_AIM_MODE && aim == 0;
      s.(moving := s.moving || IsMove(c) || c == TURN_LEFT || c == TURN_RIGHT,
         sitting := if c == SIT_DOWN then true else if c == STAND_UP then false else s.sitting,
         fighting := if c == ENTER_COMBAT || IsAttack(c) then true
                     else if c == LEAVE_COMBAT || IsMove(c) then false
                     else s.fighting,
         aimMode := if again then 1
                    else if c == LEAVE_AIM_MODE && !noAction then 2
                    else if c == AIM_MODE_FIRE && !noAction then (if w.reloads then 1 else 2)
                    else aim,
         busy := s.busy || !noAction,
         lastCommand := if again then MISSILE_MISS else c,
         queue := if again then s.queue else Tail(s.queue))
  }

  function SkipEmote(s: State): State {
    if IsEmote(Head(s.queue)) then s.(queue := Tail(s.queue)) else s
  }

  predicate Waits(s: State, w: World) {
    s.busy || (w.playingEmote && !(IsMove(Head(s.queue)) && IsMove(s.lastCommand)))
  }

  /** next_command, for this actor. */
  function Next(s: State, w: World): State {
    var t := SkipEmote(s);
    if Waits(t, w) then t
    else if t.queue == [] then t.(lastCommand := NOTHING)
    else Start(t, w)
  }

  /** The end of a move; another one follows without delay. */
  function FinishMove(s: State, w: World): State {
    var t := s.(moving := false, busy := false, tile := Plus(s.tile, Motion(s.lastCommand)));
    if HasMotion(s.lastCommand) && IsMove(Head(s.queue)) then Next(t, w) else t
  }

  /** An actor without an animation is freed at once. */
  function Free(s: State): State {
    s.(busy := false)
  }

  /** The end of an animation; only then the range pose is really left. */
  function Release(s: State): State {
    Free(s).(aimMode := if s.aimMode == 2 then 0 else s.aimMode)
  }

  // ---------- the position ----------

  function Minus(a: Tile, b: Tile): Tile {
    Tile(a.x - b.x, a.y - b.y)
  }

  function InFlight(s: State): Tile {
    if s.moving then Motion(s.lastCommand) else Tile(0, 0)
  }

  /** Where the displayed position will be after the move in flight and the moves still queued. */
  function Heading(s: State): Tile {
    Plus(Plus(s.tile, InFlight(s)), Walk(s.queue))
  }

  /** How far the server's position will then be away. */
  function Missing(s: State): Tile {
    Minus(s.async, Heading(s))
  }

  predicate InStep(s: State) {
    s.async == Heading(s)
  }

  lemma InStepMissesNothing(s: State)
    ensures InStep(s) <==> Missing(s) == Tile(0, 0)
  {
    hide Heading;
  }

  lemma {:induction false} WalkConcat(a: Queue, b: Queue)
    ensures Walk(a + b) == Plus(Walk(a), Walk(b))
  {
    hide Motion;
    if a == [] {
      assert a + b == b;
    } else {
      assert (a + b)[1..] == a[1..] + b;
      WalkConcat(a[1..], b);
    }
  }

  lemma WalkAppended(q: Queue, c: Cmd)
    ensures Walk(q + [c]) == Plus(Walk(q), Motion(c))
  {
    hide Motion;
    WalkConcat(q, [c]);
    assert [c][1..] == [] && Walk([c]) == Plus(Motion(c), Tile(0, 0));
  }

  lemma {:induction false} WalkStripped(q: Queue)
    ensures Walk(Strip(q)) == Walk(q)
  {
    hide Motion;
    if q != [] {
      WalkStripped(q[1..]);
      if IsBlow(q[0]) {
        assert !HasMotion(q[0]);
        assert Strip(q) == Strip(q[1..]);
      } else {
        assert Strip(q) == [q[0]] + Strip(q[1..]);
      }
    }
  }

  lemma {:induction false} WalkTurns(m: Queue)
    requires AllTurns(m)
    ensures Walk(m) == Tile(0, 0)
  {
    hide Motion;
    if m != [] {
      assert !HasMotion(m[0]);
      WalkTurns(m[1..]);
    }
  }

  lemma WalkPushed(q: Queue, c: Cmd)
    requires QueueOk(q)
    ensures Walk(Push(q, c)) == if |q| < MAX_CMD_QUEUE - 1 then Plus(Walk(q), Motion(c)) else Walk(q)
  {
    hide Motion, HasMotion, Walk, One, StartsWithSpam;
    WalkWithOne(q, c);
    if MAX_CMD_QUEUE - 8 < |q| < MAX_CMD_QUEUE - 1 {
      StillMotions();
      if StartsWithSpam(q) {
        WalkWithoutFirst(q);
        WalkWithOne(q[1..], c);
      } else if IsSitStand(c) && IsSitStand(q[|q| - 1]) {
        WalkReplaced(q, c);
      }
    }
  }

  lemma WalkWithOne(q: Queue, c: Cmd)
    ensures Walk(q + One(c)) == Plus(Walk(q), Motion(c))
  {
    hide Motion, Walk;
    if c == NOTHING {
      StillMotions();
      assert q + [] == q;
    } else {
      WalkAppended(q, c);
    }
  }

  lemma WalkWithoutFirst(q: Queue)
    requires StartsWithSpam(q)
    ensures Walk(q[1..]) == Walk(q)
  {
    hide Motion, Walk;
    StillMotions();
    WalkFirst(q);
  }

  lemma WalkReplaced(q: Queue, c: Cmd)
    requires q != [] && Motion(q[|q| - 1]) == Tile(0, 0)
    ensures Walk(q[..|q| - 1] + [c]) == Plus(Walk(q), Motion(c))
  {
    hide Motion, Walk;
    var r := q[..|q| - 1];
    assert q == r + [q[|q| - 1]];
    WalkAppended(r, q[|q| - 1]);
    WalkAppended(r, c);
  }

  lemma WalkFirst(q: Queue)
    requires q != []
    ensures Walk(q) == Plus(Motion(q[0]), Walk(q[1..]))
  {
    hide Motion;
  }

  lemma StillMotions()
    ensures Motion(SIT_DOWN) == Motion(STAND_UP) == Motion(NOTHING) == Tile(0, 0)
    ensures Motion(LEAVE_COMBAT) == Motion(ENTER_COMBAT) == Tile(0, 0)
  {
  }

  lemma WalkCancelled(q: Queue)
    requires QueueOk(q)
    ensures Walk(Received(q, ENTER_COMBAT)) == Walk(q)
  {
    hide Motion, Strip, Push, PushedAt, Before, LeavesThenTurns, Cancel;
    StripKeepsOk(q);
    WalkStripped(q);
    WalkPushed(Strip(q), ENTER_COMBAT);
    EnterPushed(q);
    StillMotions();
    var b := Before(q);
    WalkAppended(b, ENTER_COMBAT);
    if p, m :| LeavesThenTurns(b, p, m) {
      CancelsThePairIff(q, p, m);
      WalkWithoutPair(b, p, m);
    } else {
      CancelsNothingElse(q);
    }
  }

  lemma WalkWithoutPair(b: Queue, p: Queue, m: Queue)
    requires LeavesThenTurns(b, p, m)
    ensures Walk(p + m) == Walk(b) && (m != [] ==> Walk(p + m + [m[|m| - 1]]) == Walk(b))
  {
    hide Motion, Walk;
    StillMotions();
    WalkConcat(p + [LEAVE_COMBAT], m);
    WalkAppended(p, LEAVE_COMBAT);
    WalkConcat(p, m);
    WalkTurns(m);
    if m != [] {
      WalkAppended(p + m, m[|m| - 1]);
      assert !HasMotion(m[|m| - 1]);
    }
  }

  /** However the queue is tidied up, no step is lost, but for a move that finds the queue full. */
  lemma WalkReceived(q: Queue, c: Cmd)
    requires QueueOk(q) && !IsShotInfo(c)
    ensures Walk(Received(q, c)) ==
            if |q| < MAX_CMD_QUEUE - 1 || !HasMotion(c) then Plus(Walk(q), Motion(c)) else Walk(q)
  {
    hide Motion, Strip, Push, PushedAt, Cancel;
    StripKeepsOk(q);
    WalkStripped(q);
    assert c == ENTER_COMBAT ==> !HasMotion(c);
    if c == ENTER_COMBAT {
      WalkCancelled(q);
    } else {
      WalkPushed(if StripsBlows(c) then Strip(q) else q, c);
    }
  }

  /** The two tables of steps agree. */
  lemma AsyncStepIsMotion(c: Cmd)
    ensures AsyncStep(c) == Motion(c)
  {
  }

  /** The step lost when a command arrives: that of a move that finds the queue full. */
  function Dropped(q: Queue, c: Cmd): Tile {
    if |q| < MAX_CMD_QUEUE - 1 then Tile(0, 0) else Motion(c)
  }

  lemma ReceiveDrops(s: State, c: Cmd)
    requires QueueOk(s.queue)
    ensures Missing(Receive(s, c)) == Plus(Missing(s), Dropped(s.queue, c))
  {
    AsyncStepIsMotion(c);
    hide Motion, AsyncStep, Walk, Received;
    if !IsShotInfo(c) {
      WalkReceived(s.queue, c);
      assert HasMotion(c) <==> Motion(c) != Tile(0, 0);
    } else {
      assert !HasMotion(c);
    }
  }

  /** An arriving command keeps the positions in step exactly if it is not a move that finds the queue full. */
  lemma ReceiveKeepsStepIff(s: State, c: Cmd)
    requires QueueOk(s.queue) && InStep(s)
    ensures InStep(Receive(s, c)) <==> |s.queue| < MAX_CMD_QUEUE - 1 || !HasMotion(c)
  {
    hide InStep, Missing, Receive, Motion;
    ReceiveDrops(s, c);
    InStepMissesNothing(s);
    InStepMissesNothing(Receive(s, c));
  }

  /** The command that is to be started next; an emote is skipped. */
  function Coming(s: State): Cmd {
    Head(SkipEmote(s).queue)
  }

  /** Whether next_command leaves the command being carried out as it is. */
  predicate GoesOn(s: State, w: World) {
    Waits(SkipEmote(s), w) || Coming(s) == WAIT_CMD
  }

  /**
   * The step lost when a command is started: that of a move still in flight, which is forgotten, and that of
   * a run_* command, for which no move is ever made.
   */
  function LostAtStart(s: State, w: World): Tile {
    if GoesOn(s, w) then Tile(0, 0)
    else if s.moving then Motion(s.lastCommand)
    else if IsRun(Coming(s)) then Motion(Coming(s))
    else Tile(0, 0)
  }

  lemma SkipMissesNothing(s: State)
    ensures Missing(SkipEmote(s)) == Missing(s)
  {
    hide Walk, Motion;
    if IsEmote(Head(s.queue)) {
      assert !HasMotion(s.queue[0]);
      WalkFirst(s.queue);
    }
  }

  lemma StartLoses(s: State, w: World)
    requires s.queue != [] && s.queue[0] != WAIT_CMD
    ensures Missing(Start(s, w)) == Plus(Missing(s),
              if s.moving then Motion(s.lastCommand) else if IsRun(s.queue[0]) then Motion(s.queue[0]) else Tile(0, 0))
  {
    hide Motion, Walk;
    var c := s.queue[0];
    WalkFirst(s.queue);
    StillMotions();
    assert HasMotion(c) <==> Motion(c) != Tile(0, 0);
    assert !HasMotion(MISSILE_MISS);
  }

  lemma NextLoses(s: State, w: World)
    ensures Missing(Next(s, w)) == Plus(Missing(s), LostAtStart(s, w))
  {
    SkipMissesNothing(s);
    StillMotions();
    hide Motion, Walk, Waits;
    var t := SkipEmote(s);
    if !Waits(t, w) && t.queue != [] && t.queue[0] != WAIT_CMD {
      StartLoses(t, w);
    }
  }

  lemma NextKeepsOk(s: State, w: World)
    ensures forall c :: c in Next(s, w).queue ==> c in s.queue
    ensures QueueOk(s.queue) ==> QueueOk(Next(s, w).queue)
  {
    hide Waits;
    TailKeepsOk(s.queue);
    TailKeepsOk(SkipEmote(s).queue);
  }

  lemma TailKeepsOk(q: Queue)
    ensures forall c :: c in Tail(q) ==> c in q
    ensures QueueOk(q) ==> QueueOk(Tail(q))
  {
  }

  /**
   * next_command keeps the positions in step exactly if it goes on with what is being done, or no step is in flight
   * and what it starts is not a run_* command that the actor would not move for.
   */
  lemma NextKeepsStepIff(s: State, w: World)
    requires InStep(s)
    ensures InStep(Next(s, w)) <==>
            GoesOn(s, w) || if s.moving then !HasMotion(s.lastCommand) else !IsRun(Coming(s))
  {
    hide *;
    NextLoses(s, w);
    InStepMissesNothing(s);
    InStepMissesNothing(Next(s, w));
    NothingPlus(LostAtStart(s, w));
    NothingIsLostIff(s, w);
  }

  lemma NothingPlus(d: Tile)
    ensures Plus(Tile(0, 0), d) == d
  {
  }

  lemma NothingIsLostIff(s: State, w: World)
    ensures LostAtStart(s, w) == Tile(0, 0) <==>
            GoesOn(s, w) || if s.moving then !HasMotion(s.lastCommand) else !IsRun(Coming(s))
  {
    hide Motion, GoesOn, Coming;
    assert HasMotion(Coming(s)) || !IsRun(Coming(s));
  }

  /** The tile takes over the step in flight, and the move that follows at once loses nothing. */
  lemma FinishMoveLosesNothing(s: State, w: World)
    requires s.moving
    ensures Missing(FinishMove(s, w)) == Missing(s)
    ensures QueueOk(s.queue) ==> QueueOk(FinishMove(s, w).queue)
    ensures forall c :: c in FinishMove(s, w).queue ==> c in s.queue
  {
    var t := s.(moving := false, busy := false, tile := Plus(s.tile, Motion(s.lastCommand)));
    NextLoses(t, w);
    NextKeepsOk(t, w);
    hide Motion, Walk, Next, Waits;
  }

  lemma ReleaseMissesTheSame(s: State)
    ensures Missing(Release(s)) == Missing(Free(s)) == Missing(s)
  {
    hide Motion, Walk;
  }

  lemma ReleasedLosesTheStep(s: State, w: World)
    requires s.moving
    ensures LostAtStart(Release(s), w) == if StepIsKept(s, w) then Tile(0, 0) else Motion(s.lastCommand)
  {
    hide Motion;
    assert Coming(Release(s)) == Coming(s);
  }

  /** What keeps a released step: there is none, the command waits for an emote to end, or waiting is the command. */
  predicate StepIsKept(s: State, w: World) {
    || !HasMotion(s.lastCommand)
    || (w.playingEmote && !(IsMove(Coming(s)) && IsMove(s.lastCommand)))
    || Coming(s) == WAIT_CMD
  }

  /**
   * Freeing an actor with a step in flight is harmless in itself, but the next command, or the lack of one,
   * overwrites the step: the server's position is then ahead by it for good.
   */
  lemma ReleasedStepIsLostIff(s: State, w: World)
    requires InStep(s) && s.moving
    ensures InStep(Release(s)) && InStep(Free(s))
    ensures InStep(Next(Release(s), w)) <==> StepIsKept(s, w)
    ensures !StepIsKept(s, w) ==> Missing(Next(Release(s), w)) == Motion(s.lastCommand)
  {
    hide *;
    var r := Release(s);
    InStepMissesNothing(s);
    ReleaseMissesTheSame(s);
    InStepMissesNothing(r);
    InStepMissesNothing(Free(s));
    ReleasedLosesTheStep(s, w);
    NextLoses(r, w);
    InStepMissesNothing(Next(r, w));
    NothingPlus(LostAtStart(r, w));
    LostUnlessKept(s, w);
  }

  lemma LostUnlessKept(s: State, w: World)
    ensures !StepIsKept(s, w) ==> Motion(s.lastCommand) != Tile(0, 0)
  {
    hide Motion, Coming;
  }

  // ---------- whole runs ----------

  datatype Op = Arrival(c: Cmd) | Tick(w: World) | MoveEnd(w: World) | AnimationEnd | NoAnimation

  function Step(s: State, op: Op): State {
    match op
    case Arrival(c) => Receive(s, c)
    case Tick(w) => Next(s, w)
    case MoveEnd(w) => FinishMove(s, w)
    case AnimationEnd => Release(s)
    case NoAnimation => Free(s)
  }

  /** The step that an operation loses. */
  function Lost(s: State, op: Op): Tile {
    match op
    case Arrival(c) => Dropped(s.queue, c)
    case Tick(w) => LostAtStart(s, w)
    case _ => Tile(0, 0)
  }

  /** Only a move can end. Everything else can happen at any time. */
  ghost predicate Run(states: seq<State>, ops: seq<Op>) {
    && |states| == |ops| + 1
    && forall i :: 0 <= i < |ops| ==>
         (ops[i].MoveEnd? ==> states[i].moving) && states[i + 1] == Step(states[i], ops[i])
  }

  function Losses(states: seq<State>, ops: seq<Op>, n: nat): Tile
    requires n <= |ops| <= |states|
  {
    if n == 0 then Tile(0, 0) else Plus(Losses(states, ops, n - 1), Lost(states[n - 1], ops[n - 1]))
  }

  lemma StepLoses(s: State, op: Op)
    requires QueueOk(s.queue) && (op.MoveEnd? ==> s.moving)
    ensures QueueOk(Step(s, op).queue) && Missing(Step(s, op)) == Plus(Missing(s), Lost(s, op))
  {
    match op
    case Arrival(c) =>
      ReceivedKeepsOk(s.queue, c);
      ReceiveDrops(s, c);
    case Tick(w) =>
      NextKeepsOk(s, w);
      NextLoses(s, w);
    case MoveEnd(w) =>
      FinishMoveLosesNothing(s, w);
    case _ =>
  }

  /**
   * Every step is accounted for, in every run: what the displayed position will miss of the server's is what was
   * lost, one dropped, overwritten or run_* step after the other, and nothing else.
   */
  lemma {:induction false} EveryStepIsAccountedFor(states: seq<State>, ops: seq<Op>, n: nat)
    requires Run(states, ops) && QueueOk(states[0].queue) && InStep(states[0]) && n <= |ops|
    ensures QueueOk(states[n].queue) && Missing(states[n]) == Losses(states, ops, n)
    ensures InStep(states[n]) <==> Losses(states, ops, n) == Tile(0, 0)
    ensures var s := states[n];
            s.queue == [] && !s.moving ==> s.async == Plus(s.tile, Losses(states, ops, n))
    decreases n
  {
    hide Step, Lost, Motion;
    if 0 < n {
      EveryStepIsAccountedFor(states, ops, n - 1);
      StepLoses(states[n - 1], ops[n - 1]);
    }
  }

  /** No run_* commands, no move into a full queue; only the end of the move frees an actor with a step in flight. */
  predicate Admissible(s: State, op: Op) {
    match op
    case Arrival(c) => !IsRun(c) && (|s.queue| < MAX_CMD_QUEUE - 1 || !HasMotion(c))
    case Tick(_) => true
    case MoveEnd(_) => true
    case AnimationEnd => InFlight(s) == Tile(0, 0)
    case NoAnimation => InFlight(s) == Tile(0, 0)
  }

  /** A step in flight keeps the actor busy, and no run_* command is queued. */
  ghost predicate Holds(s: State) {
    (s.busy || InFlight(s) == Tile(0, 0)) && forall c :: c in s.queue ==> !IsRun(c)
  }

  ghost predicate Inv(s: State) {
    QueueOk(s.queue) && InStep(s) && Holds(s)
  }

  lemma ReceivedMembers(q: Queue, c: Cmd)
    requires QueueOk(q)
    ensures forall e :: e in Received(q, c) ==> e in q || e == c
  {
    StripKeepsOk(q);
    PushMembers(if StripsBlows(c) then Strip(q) else q, c);
    if c == ENTER_COMBAT {
      EnterPushed(q);
      if p, m :| LeavesThenTurns(Before(q), p, m) {
        CancelsThePairIff(q, p, m);
        assert forall e :: e in p + m ==> e in p + [LEAVE_COMBAT] + m;
      } else {
        CancelsNothingElse(q);
      }
    }
  }

  lemma PushMembers(q: Queue, c: Cmd)
    requires QueueOk(q)
    ensures forall e :: e in Push(q, c) ==> e in q || e == c
  {
  }

  lemma NextHolds(s: State, w: World)
    requires Holds(s)
    ensures Holds(Next(s, w)) && LostAtStart(s, w) == Tile(0, 0)
  {
    StillMotions();
    TailKeepsOk(s.queue);
    assert !HasMotion(LEAVE_AIM_MODE) && !HasMotion(AIM_MODE_FIRE) && !HasMotion(MISSILE_MISS);
    hide Motion;
  }

  lemma StepHolds(s: State, op: Op)
    requires Holds(s) && QueueOk(s.queue) && Admissible(s, op) && (op.MoveEnd? ==> s.moving)
    ensures Holds(Step(s, op)) && Lost(s, op) == Tile(0, 0)
  {
    hide Next, Received, Walk, Motion, LostAtStart, QueueOk;
    match op
    case Arrival(c) =>
      ReceivedMembers(s.queue, c);
    case Tick(w) =>
      NextKeepsOk(s, w);
      NextHolds(s, w);
    case MoveEnd(w) =>
      FinishMoveLosesNothing(s, w);
      NextHolds(s.(moving := false, busy := false, tile := Plus(s.tile, Motion(s.lastCommand))), w);
    case _ =>
  }

  lemma StepKeepsInv(s: State, op: Op)
    requires Inv(s) && Admissible(s, op) && (op.MoveEnd? ==> s.moving)
    ensures Inv(Step(s, op))
  {
    hide InStep, Missing, Step, Admissible, Lost, Holds;
    StepHolds(s, op);
    StepLoses(s, op);
    InStepMissesNothing(s);
    InStepMissesNothing(Step(s, op));
  }

  lemma {:induction false} WalkIsPerformed(s: Pose, q: Queue)
    requires forall i :: 0 <= i < |q| ==> !IsRun(q[i])
    ensures Perform(s, q).tile == Plus(s.tile, Walk(q))
    decreases |q|
  {
    hide Motion;
    if q != [] {
      assert !IsMove(q[0]) ==> !HasMotion(q[0]);
      WalkIsPerformed(Do(s, q[0]), q[1..]);
    }
  }

  /**
   * In every run of admissible operations nothing is lost: the displayed position will be the server's once the move
   * in flight and the queue are done, and is it when nothing is left to do.
   */
  lemma {:induction false} RunsStayInStep(states: seq<State>, ops: seq<Op>, n: nat)
    requires Run(states, ops) && Inv(states[0]) && n <= |ops|
    requires forall i :: 0 <= i < |ops| ==> Admissible(states[i], ops[i])
    ensures Inv(states[n])
    ensures var s := states[n];
            && Perform(Pose(Plus(s.tile, InFlight(s)), s.sitting, s.fighting), s.queue).tile == s.async
            && (s.queue == [] && !s.moving ==> s.tile == s.async)
    decreases n
  {
    if 0 < n {
      RunsStayInStep(states, ops, n - 1);
      StepKeepsInv(states[n - 1], ops[n - 1]);
    }
    var s := states[n];
    WalkIsPerformed(Pose(Plus(s.tile, InFlight(s)), s.sitting, s.fighting), s.queue);
  }
}
