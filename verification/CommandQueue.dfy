/**
 * actor_scripts.c: the array of queued commands, changed in place, and the actor that carries them out.
 * The array has a slot more than MAX_CMD_QUEUE; unused slots hold 0.
 */
module CommandQueues {
  import opened Seqs
  import opened CommandSpec
  import opened CommandRuns

  class Actor {
    const que: array<Cmd>
    var xTilePos: int
    var yTilePos: int
    var asyncXTilePos: int
    var asyncYTilePos: int
    var lastCommand: Cmd
    var moving: bool
    var busy: bool
    var inAimMode: int
    var sitting: bool
    var fighting: bool
    // the queued commands
    ghost var queue: Queue

    ghost predicate Holds(q: Queue)
      reads que
    {
      && que.Length == MAX_CMD_QUEUE + 1 && |q| <= MAX_CMD_QUEUE
      && (forall i :: 0 <= i < |q| ==> que[i] == q[i])
      && (forall i :: |q| <= i < que.Length ==> que[i] == NOTHING)
    }

    ghost predicate Valid()
      reads this, que
    {
      QueueOk(queue) && Holds(queue)
    }

    ghost function View(): State
      reads this
    {
      State(queue, Tile(xTilePos, yTilePos), Tile(asyncXTilePos, asyncYTilePos),
            lastCommand, moving, busy, inAimMode, sitting, fighting)
    }

    constructor (x: int, y: int)
      ensures Valid() && fresh(que) && Inv(View())
      ensures View() == State([], Tile(x, y), Tile(x, y), NOTHING, false, false, 0, false, false)
    {
      que := new Cmd[MAX_CMD_QUEUE + 1](_ => NOTHING);
      xTilePos, yTilePos, asyncXTilePos, asyncYTilePos := x, y, x, y;
      lastCommand, moving, busy, inAimMode, sitting, fighting := NOTHING, false, false, 0, false, false;
      queue := [];
    }

    /** The first free slot. */
    method FindFree() returns (k: nat)
      requires Valid()
      ensures k == |queue|
    {
      QueueOkAt(queue);
      k := 0;
      while k < MAX_CMD_QUEUE && que[k] != NOTHING
        invariant k <= |queue|
      {
        k := k + 1;
      }
    }

    /** Moves the commands before slot k down by one. */
    method CollapseFirst(k: nat)
      requires Valid() && 0 < k == |queue|
      modifies this`queue, que
      ensures Valid() && queue == old(queue)[1..]
    {
      QueueOkAt(queue);
      QueueOkAt(queue[1..]);
      hide QueueOk;
      var j := 0;
      while j <= k
        invariant 0 <= j <= k + 1 && queue == old(queue)
        invariant forall i :: 0 <= i < j ==> que[i] == old(que[i + 1])
        invariant forall i :: j <= i < que.Length ==> que[i] == old(que[i])
      {
        que[j] := que[j + 1];
        j := j + 1;
      }
      que[j] := NOTHING;
      queue := queue[1..];
    }

    method PushCommandInActorQueue(command: Cmd) returns (k: nat)
      requires Valid()
      modifies this`queue, que
      ensures Valid() && queue == Push(old(queue), command) && k == PushedAt(old(queue), command)
    {
      PushKeepsOk(queue, command);
      k := FindFree();
      if k > MAX_CMD_QUEUE - 2 {
        return;
      }
      if k > MAX_CMD_QUEUE - 8 {
        if (que[0] == STAND_UP || que[0] == SIT_DOWN) && (que[1] == STAND_UP || que[1] == SIT_DOWN) {
          CollapseFirst(k);
          k := k - 1;
        } else if (command == STAND_UP || command == SIT_DOWN) && (que[k - 1] == STAND_UP || que[k - 1] == SIT_DOWN) {
          que[k - 1] := command;
          queue := queue[..k - 1] + [command];
          return;
        }
      }
      que[k] := command;
      queue := queue + One(command);
    }

    /** Closes the two holes left by a cancelled pair. */
    method SanitizeCmdQueue(ghost p: Queue, ghost m: Queue)
      requires |p| + 1 + |m| <= MAX_CMD_QUEUE - 1 && QueueOk(p) && QueueOk(m) && Holds(p + [NOTHING] + m)
      modifies que
      ensures Holds(Sanitized(p, m))
    {
      ghost var a, b := |p|, |p| + 1 + |m|;
      QueueOkAt(p);
      QueueOkAt(m);
      ghost var o := que[..];
      assert forall i :: 0 <= i < que.Length ==> (o[i] != NOTHING <==> i < b && i != a);
      var k, j := 0, 0;
      while k < MAX_CMD_QUEUE - 1 - j
        invariant 0 <= k <= MAX_CMD_QUEUE - 1 && 0 <= j
        invariant j == if k <= a then 0 else if k <= b then 1 else 1 + k - b
        invariant k + j <= MAX_CMD_QUEUE && (k == MAX_CMD_QUEUE - 1 ==> a == k - 1)
        invariant forall i :: 0 <= i < a && i < k ==> que[i] == o[i]
        invariant forall i :: a <= i < k ==> que[i] == if i < b then o[i + 1] else NOTHING
        invariant forall i :: k <= i < que.Length ==> que[i] == o[i]
      {
        if que[k] == NOTHING {
          j := j + 1;
        }
        que[k] := que[k + j];
        k := k + 1;
      }
      FreeEnd(Sanitized(p, m), j);
    }

    /** Frees as many slots as there were holes, from slot MAX_CMD_QUEUE - 1 down; no command is in them. */
    method FreeEnd(ghost q: Queue, holes: nat)
      requires Holds(q) && |q| + holes <= MAX_CMD_QUEUE
      modifies que
      ensures Holds(q)
    {
      var k, j := MAX_CMD_QUEUE - 1, holes;
      while k > 0 && j > 0
        invariant 0 <= k <= MAX_CMD_QUEUE - 1 && 0 <= j
        invariant MAX_CMD_QUEUE - 1 - k + j <= holes
        invariant Holds(q)
      {
        que[k] := NOTHING;
        k, j := k - 1, j - 1;
      }
    }

    /** Strips what is left of a fight, moving the other commands up. */
    method StripBlows()
      requires Valid()
      modifies this`queue, que
      ensures Valid() && queue == Strip(old(queue))
    {
      ghost var o := que[..];
      var j, k := 0, 0;
      NoneStripped(o);
      StripKeepsOk(queue);
      hide Strip, IsBlow, QueueOk, HalfStripped;
      while k < MAX_CMD_QUEUE
        invariant 0 <= j <= k <= MAX_CMD_QUEUE && queue == old(queue) && HalfStripped(o, que[..], j, k)
      {
        ghost var s := que[..];
        OneMoreStripped(o, s, j, k);
        if IsBlow(que[k]) {
          que[k] := NOTHING;
        } else {
          que[j] := que[k];
          j := j + 1;
          if j <= k {
            que[k] := NOTHING;
          }
        }
        assert que[..] == if IsBlow(s[k]) then s[k := NOTHING] else Shifted(s, j - 1, k);
        k := k + 1;
      }
      AllStripped(o, que[..], queue, j);
      queue := Strip(queue);
    }

    /** Looks back from an enter_combat pushed at k, and drops it with a leave_combat that only turns follow. */
    method CancelLeaveCombat(k: nat)
      requires Valid() && k <= |queue| <= k + 1 && k <= MAX_CMD_QUEUE - 1
      requires k < |queue| ==> queue[k] == ENTER_COMBAT
      modifies this`queue, que
      ensures Valid() && queue == Cancel(old(queue), k)
    {
      QueueOkAt(queue);
      hide QueueOk;
      var j: int := k - 1;
      while 0 <= j && IsTurn(que[j])
        invariant -1 <= j < k && SkipTurns(queue, k - 1) == SkipTurns(queue, j)
      {
        j := j - 1;
      }
      if j >= 0 && que[j] == LEAVE_COMBAT {
        DropPair(j, k);
      }
    }

    method DropPair(j: nat, k: nat)
      requires Valid() && j < k <= |queue| <= k + 1 && k <= MAX_CMD_QUEUE - 1
      modifies this`queue, que
      ensures Valid() && queue == Sanitized(old(queue)[..j], old(queue)[j + 1..k])
    {
      SanitizedKeepsOk(queue, j, k);
      WithHole(queue, j, k);
      hide QueueOk, Sanitized;
      ghost var p, m := queue[..j], queue[j + 1..k];
      que[j] := NOTHING;
      que[k] := NOTHING;
      SanitizeCmdQueue(p, m);
      queue := Sanitized(p, m);
    }

    /** add_command_to_actor, up to what it does about a full queue. */
    method AddCommand(command: Cmd)
      requires Valid() && command < WAIT_CMD
      modifies this`queue, que, this`asyncXTilePos, this`asyncYTilePos
      ensures Valid() && View() == Receive(old(View()), command)
    {
      hide Push, PushedAt, Strip, Cancel, Filter;
      ReceivedKeepsOk(queue, command);
      if command == MISSILE_MISS || command == MISSILE_CRITICAL || command == AIM_MODE_RELOAD {
        return;
      }
      if StripsBlows(command) {
        StripBlows();
      }
      ghost var s := queue;
      var k := PushCommandInActorQueue(command);
      if command == ENTER_COMBAT {
        PushedEnter(s);
        CancelLeaveCombat(k);
      }
      if command in {20, 30, 21, 31, 27, 37} {
        asyncYTilePos := asyncYTilePos + 1;
      } else if command in {24, 34, 23, 33, 25, 35} {
        asyncYTilePos := asyncYTilePos - 1;
      }
      if command in {22, 32, 21, 31, 23, 33} {
        asyncXTilePos := asyncXTilePos + 1;
      } else if command in {26, 36, 25, 35, 27, 37} {
        asyncXTilePos := asyncXTilePos - 1;
      }
    }

    /** Takes the first command out of the queue. */
    method UnqueueCmd()
      requires Valid() && queue != []
      modifies this`queue, que
      ensures Valid() && queue == old(queue)[1..]
    {
      QueueOkAt(queue);
      QueueOkAt(queue[1..]);
      var k := 0;
      while k < MAX_CMD_QUEUE - 1
        invariant 0 <= k <= MAX_CMD_QUEUE - 1 && queue == old(queue)
        invariant forall i :: 0 <= i < k ==> que[i] == old(que[i + 1])
        invariant forall i :: k <= i < que.Length ==> que[i] == old(que[i])
      {
        que[k] := que[k + 1];
        k := k + 1;
      }
      que[k] := NOTHING;
      queue := queue[1..];
    }

    method MotionVector(command: Cmd) returns (moves: bool, dx: int, dy: int)
      ensures moves == HasMotion(command) && Tile(dx, dy) == Motion(command)
    {
      moves := true;
      if command == 20 || command == 30 {
        dx, dy := 0, 1;
      } else if command == 24 || command == 34 {
        dx, dy := 0, -1;
      } else if command == 22 || command == 32 {
        dx, dy := 1, 0;
      } else if command == 26 || command == 36 {
        dx, dy := -1, 0;
      } else if command == 21 || command == 31 {
        dx, dy := 1, 1;
      } else if command == 23 || command == 33 {
        dx, dy := 1, -1;
      } else if command == 25 || command == 35 {
        dx, dy := -1, -1;
      } else if command == 27 || command == 37 {
        dx, dy := -1, 1;
      } else {
        dx, dy := 0, 0;
        moves := false;
      }
    }

    /** next_command for this actor: an emote goes at once, the rest waits until the actor is not busy. */
    method NextCommand(w: World)
      requires Valid()
      modifies this, que
      ensures Valid() && View() == CommandRuns.Next(old(View()), w)
    {
      QueueOkAt(queue);
      assert queue == [] <==> que[0] == NOTHING;
      if IsEmote(que[0]) {
        UnqueueCmd();
        QueueOkAt(queue);
      }
      if busy || (w.playingEmote && !(IsMove(que[0]) && IsMove(lastCommand))) {
        return;
      }
      if que[0] == NOTHING {
        lastCommand := NOTHING;
        return;
      }
      StartCommand(w);
    }

    method StartCommand(w: World)
      requires Valid() && queue != [] && !busy
      modifies this, que
      ensures Valid() && View() == Start(old(View()), w)
    {
      hide QueueOk;
      var c := que[0];
      var noAction := false;
      if w.enhanced && inAimMode == 1 && (c < ENTER_AIM_MODE || c > MISSILE_CRITICAL) && (c < TURN_N || c > TURN_NW) {
        inAimMode := 0;
      }
      if c == SIT_DOWN {
        sitting := true;
      } else if c == STAND_UP {
        sitting := false;
      } else if c == ENTER_COMBAT || c == LEAVE_COMBAT {
        fighting := c == ENTER_COMBAT;
      } else if IsAttack(c) {
        fighting := true;
      } else if c == TURN_LEFT || c == TURN_RIGHT {
        moving := true;
      } else if c == LEAVE_AIM_MODE {
        if inAimMode != 1 && !w.bonesRotated {
          noAction := true;
        } else {
          inAimMode := 2;
        }
      } else if c == AIM_MODE_FIRE {
        if inAimMode != 1 {
          noAction := true;
        } else {
          inAimMode := if w.reloads then 1 else 2;
        }
      } else if c == WAIT_CMD {
        return;
      } else if IsMove(c) {
        moving, fighting := true, false;
      }
      if !noAction {
        busy := true;
      }
      lastCommand := c;
      if c == ENTER_AIM_MODE && inAimMode == 0 {
        inAimMode, lastCommand := 1, MISSILE_MISS;
        return;
      }
      UnqueueCmd();
    }

    /** move_to_next_frame for this actor, without a rider or horse to wait for. */
    method MoveToNextFrame(hasModel: bool, stopAnimation: bool, animTime: real, duration: real, animIndex: int)
      modifies this`busy, this`inAimMode
      ensures var s := if hasModel && stopAnimation && duration <= animTime then Release(old(View())) else old(View());
              View() == if animIndex == -1 then Free(s) else s
    {
      if hasModel {
        if stopAnimation && animTime >= duration {
          busy := false;
          if inAimMode == 2 {
            inAimMode := 0;
          }
        }
      }
      if animIndex == -1 {
        busy := false;
      }
    }

    /** The end of a move, in animate_actors. */
    method FinishMove(w: World)
      requires Valid() && moving
      modifies this, que
      ensures Valid() && View() == CommandRuns.FinishMove(old(View()), w)
    {
      QueueOkAt(queue);
      moving := false;
      var moves, dx, dy := MotionVector(lastCommand);
      if moves {
        xTilePos, yTilePos := xTilePos + dx, yTilePos + dy;
        busy := false;
        if IsMove(que[0]) {
          NextCommand(w);
        }
      } else {
        busy := false;
      }
    }
  }

  lemma WithHole(q: Queue, j: nat, k: nat)
    requires QueueOk(q) && j < k <= |q|
    ensures QueueOk(q[..j]) && QueueOk(q[j + 1..k])
    ensures var h := q[..j] + [NOTHING] + q[j + 1..k];
            |h| == k && forall i :: 0 <= i < k ==> h[i] == if i == j then NOTHING else q[i]
  {
    QueueOkAt(q);
    QueueOkAt(q[..j]);
    QueueOkAt(q[j + 1..k]);
  }

  lemma PushedEnter(s: Queue)
    requires QueueOk(s)
    ensures var v, k := Push(s, ENTER_COMBAT), PushedAt(s, ENTER_COMBAT);
            k <= |v| <= k + 1 && k <= MAX_CMD_QUEUE - 1 && (k < |v| ==> v[k] == ENTER_COMBAT)
  {
  }

  /** The first k slots are filtered down to the first j. */
  ghost predicate HalfStripped(o: Queue, s: Queue, j: nat, k: nat) {
    && j <= k <= |o| == |s| && s[..j] == Strip(o[..k])
    && (forall i :: j <= i < k ==> s[i] == NOTHING) && forall i :: k <= i < |o| ==> s[i] == o[i]
  }

  /** Slot k moved to slot j. */
  function Shifted(s: Queue, j: nat, k: nat): (r: Queue)
    requires j <= k < |s|
    ensures |r| == |s| && r[j] == s[k] && (j < k ==> r[k] == NOTHING)
    ensures forall i :: 0 <= i < |s| && i != j && i != k ==> r[i] == s[i]
  {
    if j < k then s[j := s[k]][k := NOTHING] else s
  }

  lemma NoneStripped(o: Queue)
    ensures HalfStripped(o, o, 0, 0)
  {
    assert o[..0] == [];
  }

  lemma OneMoreStripped(o: Queue, s: Queue, j: nat, k: nat)
    requires HalfStripped(o, s, j, k) && k < |o|
    ensures |s| == |o|
    ensures if IsBlow(s[k]) then HalfStripped(o, s[k := NOTHING], j, k + 1)
            else HalfStripped(o, Shifted(s, j, k), j + 1, k + 1)
  {
    FilterNext(o, k, c => !IsBlow(c));
    hide Strip, IsBlow;
    if IsBlow(s[k]) {
      assert s[k := NOTHING][..j] == s[..j];
    } else {
      assert Shifted(s, j, k)[..j + 1] == s[..j] + [s[k]];
    }
  }

  /** What is left when only free slots follow the commands. */
  lemma AllStripped(o: Queue, s: Queue, q: Queue, j: nat)
    requires |q| <= MAX_CMD_QUEUE < |o| && HalfStripped(o, s, j, MAX_CMD_QUEUE) && o[..|q|] == q
    requires forall i :: |q| <= i < |o| ==> o[i] == NOTHING
    ensures |s| == |o| && |Strip(q)| <= |q|
    ensures forall i :: 0 <= i < |s| ==> s[i] == if i < |Strip(q)| then Strip(q)[i] else NOTHING
  {
    var rest := o[|q|..MAX_CMD_QUEUE];
    FilterShrinks(q, c => !IsBlow(c));
    StripWithRest(q, rest);
    assert o[..MAX_CMD_QUEUE] == q + rest;
    hide Strip;
    assert s[..j] == Strip(q) + rest;
    forall i | 0 <= i < |s| ensures s[i] == if i < |Strip(q)| then Strip(q)[i] else NOTHING {
      if i < j {
        assert s[i] == s[..j][i];
      }
    }
  }

  lemma StripWithRest(q: Queue, rest: Queue)
    requires forall i :: 0 <= i < |rest| ==> rest[i] == NOTHING
    ensures Strip(q + rest) == Strip(q) + rest
  {
    FilterConcat(q, rest, c => !IsBlow(c));
    FilterAll(rest, c => !IsBlow(c));
  }
}
