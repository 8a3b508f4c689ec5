/**
 * What starting the queued commands does to an actor, held against performing the queue: whether it sits and fights,
 * the range pose, and when a command is started at all. Commands are given by their numbers.
 */
module CommandStarts {
  import opened Seqs
  import opened CommandSpec
  import opened CommandRuns

  // ---------- the queue ----------

  /** The groups of commands by number. */
  lemma Numbers(c: Cmd)
    ensures IsBlow(c) <==> c in {5, 17, 46, 47, 48, 49, 50, 51}
    ensures StripsBlows(c) <==> c in {3, 4, 18, 19}
    ensures IsShotInfo(c) <==> c in {54, 56, 59}
    ensures IsSitStand(c) <==> c in {13, 14}
    ensures IsAttack(c) <==> 46 <= c <= 51 || 60 <= c <= 73
    ensures IsMove(c) <==> 20 <= c <= 27
    ensures IsRun(c) <==> 30 <= c <= 37
    ensures IsTurn(c) <==> 38 <= c <= 45
    ensures IsEmote(c) <==> 100 <= c <= 255
  {
  }

  /** With 23 commands or less in the queue any other one is appended, after the blows are gone if it ends a fight. */
  lemma ShortQueuesGrow(q: Queue, c: Cmd)
    requires QueueOk(q) && |q| <= 23 && c !in {0, 18, 54, 56, 59}
    ensures c !in {3, 4, 19} ==> Received(q, c) == q + [c]
    ensures c in {3, 4, 19} ==> Received(q, c) == Strip(q) + [c]
  {
    StripKeepsOk(q);
    Numbers(c);
  }

  /** Up to 29 a queue loses one sit_down or stand_up at most to a new command. */
  lemma LongQueuesShrink(q: Queue, c: Cmd) returns (i: nat)
    requires QueueOk(q) && |q| <= 29 && c !in {0, 3, 4, 18, 19, 54, 56, 59}
    ensures i <= |q|
    ensures Received(q, c) == if i == |q| then q + [c] else q[..i] + q[i + 1..] + [c]
    ensures i < |q| ==> 23 < |q| && q[i] in {13, 14}
  {
    Numbers(c);
    i := if |q| <= 23 then |q|
         else if StartsWithSpam(q) then 0
         else if IsSitStand(c) && IsSitStand(q[|q| - 1]) then |q| - 1
         else |q|;
  }

  // ---------- what is left to do ----------

  function PoseOf(s: State): Pose {
    Pose(Plus(s.tile, InFlight(s)), s.sitting, s.fighting)
  }

  /** How the actor ends up once everything queued is done. */
  function Final(s: State): Pose {
    Perform(PoseOf(s), s.queue)
  }

  /** The tile an actor starts from says nothing about sitting and fighting. */
  lemma {:induction false} TileDoesNotMatter(p: Pose, r: Pose, q: Queue)
    requires p.sitting == r.sitting && p.fighting == r.fighting
    ensures Perform(p, q).sitting == Perform(r, q).sitting && Perform(p, q).fighting == Perform(r, q).fighting
    decreases |q|
  {
    hide Motion;
    if q != [] {
      TileDoesNotMatter(Do(p, q[0]), Do(r, q[0]), q[1..]);
    }
  }

  /** Starting from what the first command does is performing the rest. */
  lemma FirstIsDone(p: Pose, r: Pose, q: Queue)
    requires q != [] && r.sitting == Do(p, q[0]).sitting && r.fighting == Do(p, q[0]).fighting
    ensures Perform(p, q).sitting == Perform(r, q[1..]).sitting && Perform(p, q).fighting == Perform(r, q[1..]).fighting
  {
    hide Do;
    TileDoesNotMatter(Do(p, q[0]), r, q[1..]);
  }

  /** Whether next_command starts a command. */
  predicate Starts(s: State, w: World) {
    var t := SkipEmote(s);
    !Waits(t, w) && t.queue != [] && t.queue[0] != WAIT_CMD
  }

  /** Starting a command makes the actor sit, stand, fight or stop as doing it does; nothing else changes that. */
  lemma StartIsDo(s: State, w: World)
    ensures var s', d := Next(s, w), if Starts(s, w) then Do(PoseOf(s), Coming(s)) else PoseOf(s);
            s'.sitting == d.sitting && s'.fighting == d.fighting
  {
    hide Motion, Waits;
  }

  lemma SkippedIsDone(s: State)
    ensures var t := SkipEmote(s);
            Final(t).sitting == Final(s).sitting && Final(t).fighting == Final(s).fighting
  {
    if IsEmote(Head(s.queue)) {
      FirstIsDone(PoseOf(s), PoseOf(SkipEmote(s)), s.queue);
    }
  }

  lemma StartedIsDone(s: State, w: World)
    requires s.queue != []
    ensures var t := Start(s, w);
            Final(t).sitting == Final(s).sitting && Final(t).fighting == Final(s).fighting
  {
    var t := Start(s, w);
    if t.queue == s.queue {
      TileDoesNotMatter(PoseOf(s), PoseOf(t), s.queue);
    } else {
      FirstIsDone(PoseOf(s), PoseOf(t), s.queue);
    }
  }

  /** Whatever next_command does, the actor will sit and fight in the end as before. */
  lemma NextKeepsTheEnd(s: State, w: World)
    ensures Final(Next(s, w)).sitting == Final(s).sitting && Final(Next(s, w)).fighting == Final(s).fighting
  {
    SkippedIsDone(s);
    hide Waits, Perform, Start, Motion;
    var t := SkipEmote(s);
    if t.queue != [] {
      StartedIsDone(t, w);
    } else {
      SamePose(t, t.(lastCommand := NOTHING));
    }
  }

  lemma SamePose(s: State, t: State)
    requires s.queue == t.queue && s.sitting == t.sitting && s.fighting == t.fighting
    ensures Final(s).sitting == Final(t).sitting && Final(s).fighting == Final(t).fighting
  {
    TileDoesNotMatter(PoseOf(s), PoseOf(t), s.queue);
  }

  /** The same for all that happens to an actor but the arrival of commands. */
  lemma StepKeepsTheEnd(s: State, op: Op)
    requires !op.Arrival?
    ensures Final(Step(s, op)).sitting == Final(s).sitting && Final(Step(s, op)).fighting == Final(s).fighting
  {
    match op
    case Tick(w) => NextKeepsTheEnd(s, w);
    case MoveEnd(w) =>
      var t := s.(moving := false, busy := false, tile := Plus(s.tile, Motion(s.lastCommand)));
      SamePose(s, t);
      NextKeepsTheEnd(t, w);
      hide Next, Final;
    case AnimationEnd => SamePose(s, Release(s));
    case NoAnimation => SamePose(s, Free(s));
  }

  // ---------- whole runs ----------

  /** How an actor should end up: as the queue it had makes it, and then every command that has arrived. */
  function Told(p: Pose, ops: seq<Op>, n: nat): Pose
    requires n <= |ops|
  {
    if n == 0 then p
    else if ops[n - 1].Arrival? then Do(Told(p, ops, n - 1), ops[n - 1].c)
    else Told(p, ops, n - 1)
  }

  /** No command that matters finds the queue full. */
  predicate SitsAsTold(s: State, op: Op) {
    op.Arrival? && !IsShotInfo(op.c) ==> HasRoomFor(s.queue, op.c) || !Stirs(Final(s), op.c)
  }

  ghost predicate FightsAsTold(s: State, op: Op) {
    op.Arrival? && !IsShotInfo(op.c) ==> FightingIsKept(PoseOf(s), s.queue, op.c)
  }

  lemma SittingIsDone(p: Pose, r: Pose, c: Cmd)
    ensures p.sitting == r.sitting ==> Do(p, c).sitting == Do(r, c).sitting
    ensures p.fighting == r.fighting ==> Do(p, c).fighting == Do(r, c).fighting
    ensures IsShotInfo(c) ==> Do(p, c) == p
  {
    hide Motion;
  }

  lemma ArrivalIsTold(s: State, c: Cmd, p: Pose)
    requires QueueOk(s.queue)
    ensures Final(s).sitting == p.sitting && SitsAsTold(s, Arrival(c)) ==>
              Final(Receive(s, c)).sitting == Do(p, c).sitting
    ensures Final(s).fighting == p.fighting && FightsAsTold(s, Arrival(c)) ==>
              Final(Receive(s, c)).fighting == Do(p, c).fighting
  {
    SittingIsDone(Final(s), p, c);
    if !IsShotInfo(c) {
      ReceivedKeepsTheEndIff(PoseOf(s), s.queue, c);
      ReceivedKeepsFightingIff(PoseOf(s), s.queue, c);
      assert PoseOf(Receive(s, c)) == PoseOf(s);
    }
    hide Perform, Received, Do, FightingIsKept, HasRoomFor, Stirs;
  }

  lemma StepKeepsQueue(s: State, op: Op)
    requires QueueOk(s.queue) && (op.MoveEnd? ==> s.moving)
    ensures QueueOk(Step(s, op).queue)
  {
    StepLoses(s, op);
  }

  /**
   * At every moment of every run the actor is on the way to sitting and fighting as the commands that have arrived say:
   * for sitting unless a full queue has dropped a command that mattered, for fighting unless one of the cases has
   * occurred in which a queue gives up what it knew.
   */
  lemma {:induction false} RunsEndAsTold(states: seq<State>, ops: seq<Op>, n: nat)
    requires Run(states, ops) && QueueOk(states[0].queue) && n <= |ops|
    ensures QueueOk(states[n].queue)
    ensures (forall i :: 0 <= i < n ==> SitsAsTold(states[i], ops[i])) ==>
              Final(states[n]).sitting == Told(Final(states[0]), ops, n).sitting
    ensures (forall i :: 0 <= i < n ==> FightsAsTold(states[i], ops[i])) ==>
              Final(states[n]).fighting == Told(Final(states[0]), ops, n).fighting
    decreases n
  {
    hide Step, Final, SitsAsTold, FightsAsTold;
    if 0 < n {
      var s, op := states[n - 1], ops[n - 1];
      RunsEndAsTold(states, ops, n - 1);
      StepKeepsQueue(s, op);
      var p := Told(Final(states[0]), ops, n - 1);
      if op.Arrival? {
        ArrivalIsTold(s, op.c, p);
        assert Step(s, op) == Receive(s, op.c) by {
          ArrivalStep(s, op.c);
        }
      } else {
        StepKeepsTheEnd(s, op);
      }
    }
  }

  lemma ArrivalStep(s: State, c: Cmd)
    ensures Step(s, Arrival(c)) == Receive(s, c)
  {
    hide Receive;
  }

  /** Once nothing is left to do the actor sits and fights as told. */
  lemma IdleIsAsTold(states: seq<State>, ops: seq<Op>, n: nat)
    requires Run(states, ops) && QueueOk(states[0].queue) && n <= |ops| && states[n].queue == []
    ensures (forall i :: 0 <= i < n ==> SitsAsTold(states[i], ops[i])) ==>
              states[n].sitting == Told(Final(states[0]), ops, n).sitting
    ensures (forall i :: 0 <= i < n ==> FightsAsTold(states[i], ops[i])) ==>
              states[n].fighting == Told(Final(states[0]), ops, n).fighting
  {
    RunsEndAsTold(states, ops, n);
  }

  // ---------- when a command is started ----------

  /** An emote at the head is always taken out of the queue, and otherwise a busy actor is left alone. */
  lemma BusyIsLeftAlone(s: State, w: World)
    requires s.busy
    ensures Next(s, w) ==
            if s.queue != [] && 100 <= s.queue[0] <= 255 then s.(queue := s.queue[1..]) else s
  {
  }

  /** So is one that plays an emote, except that it walks on. */
  lemma EmoteIsPlayed(s: State, w: World)
    requires w.playingEmote && !s.busy && (s.queue == [] || !(100 <= s.queue[0] <= 255))
    ensures Next(s, w) == s || (s.queue != [] && 20 <= s.queue[0] <= 27 && 20 <= s.lastCommand <= 27)
  {
  }

  /** An emote at the head does not keep the command behind it from being started. */
  lemma EmoteIsSkipped(s: State, w: World)
    requires s.queue != [] && 100 <= s.queue[0] <= 255 && (|s.queue| == 1 || !(100 <= s.queue[1] <= 255))
    ensures Next(s, w) == Next(s.(queue := s.queue[1..]), w)
  {
  }

  /** With nothing to do the last command is forgotten, and waiting for a horse goes on. */
  lemma NothingIsDone(s: State, w: World)
    requires !s.busy && !w.playingEmote && (s.queue == [] || s.queue[0] == 256)
    ensures s.queue == [] ==> Next(s, w) == s.(lastCommand := 0)
    ensures s.queue != [] ==> Next(s, w) == s.(aimMode := if w.enhanced && s.aimMode == 1 then 0 else s.aimMode)
  {
  }

  /** The actor does what is first in the queue. */
  ghost predicate Ready(s: State, w: World) {
    && !s.busy && s.queue != [] && !(100 <= s.queue[0] <= 255) && s.queue[0] != 256
    && (w.playingEmote ==> 20 <= s.queue[0] <= 27 && 20 <= s.lastCommand <= 27)
  }

  /**
   * A free actor starts the first command: it leaves the queue, is remembered, and makes the actor busy. Entering the
   * range pose stays in the queue the first time, and firing or leaving outside the pose is no action.
   */
  lemma FreeActorStarts(s: State, w: World)
    requires Ready(s, w)
    ensures var s', c := Next(s, w), s.queue[0];
            && s'.tile == s.tile && s'.async == s.async
            && (c == 52 && s.aimMode == 0 ==> s'.queue == s.queue && s'.lastCommand == 56 && s'.busy)
            && (!(c == 52 && s.aimMode == 0) ==> s'.queue == s.queue[1..] && s'.lastCommand == c)
            && (c !in {53, 55} ==> s'.busy)
            && (c in {15, 16} || 20 <= c <= 27 ==> s'.moving)
            && (!(c in {15, 16} || 20 <= c <= 27) ==> s'.moving == s.moving)
  {
  }

  /** The range pose: 1 is in it, 2 leaving it. Firing and leaving are no action outside it. */
  lemma AimModes(s: State, w: World)
    requires Ready(s, w)
    ensures var s', c, aim := Next(s, w), s.queue[0], s.aimMode;
            && (c == 52 ==> s'.aimMode == if aim == 0 then 1 else aim)
            && (c == 53 && (aim == 1 || w.bonesRotated) ==> s'.aimMode == 2 && s'.busy)
            && (c == 53 && aim != 1 && !w.bonesRotated ==> s'.aimMode == aim && !s'.busy)
            && (c == 55 && aim == 1 ==> s'.aimMode == (if w.reloads then 1 else 2) && s'.busy)
            && (c == 55 && aim != 1 ==> s'.aimMode == aim && !s'.busy)
            && (c in {54, 56, 57, 58, 59} || 38 <= c <= 45 ==> s'.aimMode == aim)
            && (!(52 <= c <= 59 || 38 <= c <= 45) ==> s'.aimMode == if w.enhanced && aim == 1 then 0 else aim)
  {
  }

  /** Taking up the pose takes two starts: the actor is freed between them, and aims at the second. */
  lemma AimingTakesTwo(s: State, w: World, w': World)
    requires Ready(s, w) && s.queue[0] == 52 && s.aimMode == 0 && !w'.playingEmote
    ensures var s1 := Next(s, w);
            var s2 := Next(Release(s1), w');
            && s1.queue == s.queue && s1.aimMode == 1
            && s2.queue == s.queue[1..] && s2.aimMode == 1 && s2.busy && s2.lastCommand == 52
  {
  }

  /** A shot ends the pose unless it reloads, and so does leaving it: not at once, but with the animation. */
  lemma PoseIsLeftAtTheEnd(s: State, w: World)
    requires Ready(s, w) && s.aimMode == 1 && s.queue[0] in {53, 55}
    ensures var s', stays := Next(s, w), s.queue[0] == 55 && w.reloads;
            && !Release(s').busy && Release(s').aimMode == (if stays then 1 else 0)
            && !Free(s').busy && Free(s').aimMode == (if stays then 1 else 2)
  {
  }

  lemma StartKeepsAim(s: State, w: World)
    requires 0 <= s.aimMode <= 2
    ensures 0 <= Start(s, w).aimMode <= 2
  {
  }

  lemma NextKeepsAim(s: State, w: World)
    requires 0 <= s.aimMode <= 2
    ensures 0 <= Next(s, w).aimMode <= 2
  {
    StartKeepsAim(SkipEmote(s), w);
    hide Waits, Start;
  }

  /** There are three states of the pose, in every run. */
  lemma StepKeepsAim(s: State, op: Op)
    requires 0 <= s.aimMode <= 2
    ensures 0 <= Step(s, op).aimMode <= 2
  {
    hide Motion, Received, Next;
    match op
    case Tick(w) => NextKeepsAim(s, w);
    case MoveEnd(w) => NextKeepsAim(s.(moving := false, busy := false, tile := Plus(s.tile, Motion(s.lastCommand))), w);
    case _ =>
  }

  /** The commands for which a move ends on another tile. */
  predicate Steps(c: Cmd) {
    20 <= c <= 27 || 30 <= c <= 37
  }

  /** At the end of a move a walking actor with more moves queued walks on at once; any other comes to rest. */
  lemma WalksOn(s: State, w: World)
    requires s.moving
    ensures var s' := FinishMove(s, w);
            && s'.tile == (if Steps(s.lastCommand) then Plus(s.tile, AsyncStep(s.lastCommand)) else s.tile)
            && if Steps(s.lastCommand) && s.queue != [] && 20 <= s.queue[0] <= 27
                  && (w.playingEmote ==> s.lastCommand <= 27) then
                 && s'.moving && s'.busy && !s'.fighting && s'.sitting == s.sitting
                 && s'.lastCommand == s.queue[0] && s'.queue == s.queue[1..]
               else s' == s.(moving := false, busy := false, tile := s'.tile)
  {
    AsyncStepIsMotion(s.lastCommand);
    hide Motion, AsyncStep;
    assert HasMotion(s.lastCommand) || Motion(s.lastCommand) == Tile(0, 0);
  }
}
