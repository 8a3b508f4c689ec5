/**
 * The command queue of an actor as a value, and what its commands do to the actor.
 * Commands are the numbers of client_serv.h; 0 is no command.
 */
module CommandSpec {
  import opened Seqs

  type Cmd = nat

  const MAX_CMD_QUEUE: nat := 31

  const NOTHING: Cmd := 0
  const DIE1: Cmd := 3
  const DIE2: Cmd := 4
  const PAIN1: Cmd := 5
  const SIT_DOWN: Cmd := 13
  const STAND_UP: Cmd := 14
  const TURN_LEFT: Cmd := 15
  const TURN_RIGHT: Cmd := 16
  const PAIN2: Cmd := 17
  const ENTER_COMBAT: Cmd := 18
  const LEAVE_COMBAT: Cmd := 19
  const MOVE_N: Cmd := 20
  const MOVE_NW: Cmd := 27
  const RUN_N: Cmd := 30
  const RUN_NW: Cmd := 37
  const TURN_N: Cmd := 38
  const TURN_NW: Cmd := 45
  const ENTER_AIM_MODE: Cmd := 52
  const LEAVE_AIM_MODE: Cmd := 53
  const AIM_MODE_RELOAD: Cmd := 54
  const AIM_MODE_FIRE: Cmd := 55
  const MISSILE_MISS: Cmd := 56
  const MISSILE_CRITICAL: Cmd := 59
  const EMOTE_CMD: Cmd := 100
  const WAIT_CMD: Cmd := 256

  predicate IsMove(c: Cmd) { MOVE_N <= c <= MOVE_NW }
  predicate IsRun(c: Cmd) { RUN_N <= c <= RUN_NW }
  predicate IsTurn(c: Cmd) { TURN_N <= c <= TURN_NW }
  predicate IsSitStand(c: Cmd) { c == SIT_DOWN || c == STAND_UP }
  predicate IsEmote(c: Cmd) { EMOTE_CMD <= c < WAIT_CMD }
  predicate IsAttack(c: Cmd) { 46 <= c <= 51 || 60 <= c <= 73 }

  /** What is stripped at the start and end of a fight: of the attacks, the first four up and first two down. */
  predicate IsBlow(c: Cmd) { c == PAIN1 || c == PAIN2 || 46 <= c <= 51 }

  predicate StripsBlows(c: Cmd) { c == LEAVE_COMBAT || c == ENTER_COMBAT || c == DIE1 || c == DIE2 }

  /** For the range actions only; never queued. */
  predicate IsShotInfo(c: Cmd) { c == MISSILE_MISS || c == MISSILE_CRITICAL || c == AIM_MODE_RELOAD }

  // ---------- the queue ----------

  type Queue = seq<Cmd>

  ghost predicate QueueOk(q: Queue) {
    |q| <= MAX_CMD_QUEUE - 1 && forall c :: c in q ==> c != NOTHING
  }

  lemma QueueOkAt(q: Queue)
    ensures QueueOk(q) <==> |q| <= MAX_CMD_QUEUE - 1 && forall i :: 0 <= i < |q| ==> q[i] != NOTHING
  {
    assert forall i :: 0 <= i < |q| ==> q[i] in q;
  }

  function One(c: Cmd): Queue {
    if c == NOTHING then [] else [c]
  }

  predicate StartsWithSpam(q: Queue) {
    2 <= |q| && IsSitStand(q[0]) && IsSitStand(q[1])
  }

  /** push_command_in_actor_queue. A full queue drops the command; an almost full one collapses sit/stand spam. */
  function Push(q: Queue, c: Cmd): Queue {
    if |q| > MAX_CMD_QUEUE - 2 then q
    else if |q| <= MAX_CMD_QUEUE - 8 then q + One(c)
    else if StartsWithSpam(q) then q[1..] + One(c)
    else if IsSitStand(c) && IsSitStand(q[|q| - 1]) then q[..|q| - 1] + [c]
    else q + One(c)
  }

  /** The index that push_command_in_actor_queue returns. */
  function PushedAt(q: Queue, c: Cmd): nat {
    if MAX_CMD_QUEUE - 8 < |q| <= MAX_CMD_QUEUE - 2 && StartsWithSpam(q) then |q| - 1 else |q|
  }

  function Strip(q: Queue): Queue {
    Filter(q, c => !IsBlow(c))
  }

  /** The last index up to j that holds no turn, or -1. */
  function SkipTurns(q: Queue, j: int): (r: int)
    requires -1 <= j < |q|
    ensures -1 <= r <= j && (0 <= r ==> !IsTurn(q[r]))
    decreases j
  {
    if 0 <= j && IsTurn(q[j]) then SkipTurns(q, j - 1) else j
  }

  /** What sanitize_cmd_queue makes of the commands before and after a first hole, the second hole following. */
  function Sanitized(p: Queue, m: Queue): Queue {
    if |p| + 1 + |m| == MAX_CMD_QUEUE - 1 && m != [] then p + m + [m[|m| - 1]] else p + m
  }

  /** Where the leave_combat stands that only turns separate from index k, or -1. */
  function LeftAt(q: Queue, k: nat): (l: int)
    requires k <= |q|
    ensures -1 <= l < k
  {
    var j := SkipTurns(q, k - 1);
    if 0 <= j && q[j] == LEAVE_COMBAT then j else -1
  }

  /** The cancellation done after an enter_combat was pushed at k. */
  function Cancel(q: Queue, k: nat): Queue
    requires k <= |q| <= k + 1
  {
    var l := LeftAt(q, k);
    if 0 <= l then Sanitized(q[..l], q[l + 1..k]) else q
  }

  /** The queue after add_command_to_actor has dealt with a command. */
  function Received(q: Queue, c: Cmd): Queue {
    if IsShotInfo(c) then q else
      var s := if StripsBlows(c) then Strip(q) else q;
      if c == ENTER_COMBAT then Cancel(Push(s, c), PushedAt(s, c)) else Push(s, c)
  }

  lemma StripKeepsOk(q: Queue)
    requires QueueOk(q)
    ensures QueueOk(Strip(q)) && |Strip(q)| <= |q|
    ensures forall c :: c in Strip(q) <==> c in q && !IsBlow(c)
  {
    FilterMembers(q, c => !IsBlow(c));
    FilterShrinks(q, c => !IsBlow(c));
  }

  lemma PushKeepsOk(q: Queue, c: Cmd)
    requires QueueOk(q)
    ensures QueueOk(Push(q, c))
  {
    QueueOkAt(q);
    QueueOkAt(Push(q, c));
  }

  /** No command leaves a hole or overfills the queue. */
  lemma ReceivedKeepsOk(q: Queue, c: Cmd)
    requires QueueOk(q)
    ensures QueueOk(Received(q, c))
  {
    StripKeepsOk(q);
    var s := if StripsBlows(c) then Strip(q) else q;
    PushKeepsOk(s, c);
    if c == ENTER_COMBAT {
      var p := Push(s, c);
      var k: int := PushedAt(s, c);
      var l := LeftAt(p, k);
      if 0 <= l {
        SanitizedKeepsOk(p, l, k);
      }
    }
  }

  lemma SanitizedKeepsOk(q: Queue, j: nat, k: nat)
    requires QueueOk(q) && j < k <= |q| <= k + 1
    ensures QueueOk(Sanitized(q[..j], q[j + 1..k]))
  {
    var r := Sanitized(q[..j], q[j + 1..k]);
    forall c | c in r ensures c in q {
      var i :| 0 <= i < |r| && r[i] == c;
      assert c == if i < j then q[i] else if i < k - 1 then q[i + 1] else q[k - 1];
    }
  }

  ghost predicate AllTurns(m: Queue) {
    forall i :: 0 <= i < |m| ==> IsTurn(m[i])
  }

  lemma {:induction false} SkippedAreTurns(q: Queue, j: int)
    requires -1 <= j < |q|
    ensures forall i :: SkipTurns(q, j) < i <= j ==> IsTurn(q[i])
    decreases j
  {
    if 0 <= j && IsTurn(q[j]) {
      SkippedAreTurns(q, j - 1);
    }
  }

  lemma {:induction false} SkipsBackTo(q: Queue, l: nat, j: int)
    requires l <= j < |q| && !IsTurn(q[l]) && forall i :: l < i <= j ==> IsTurn(q[i])
    ensures SkipTurns(q, j) == l
    decreases j
  {
    if l < j {
      SkipsBackTo(q, l, j - 1);
    }
  }

  ghost predicate LeavesThenTurns(q: Queue, p: Queue, m: Queue) {
    q == p + [LEAVE_COMBAT] + m && AllTurns(m)
  }

  lemma LeftAtSplits(q: Queue, k: nat)
    requires k <= |q| && 0 <= LeftAt(q, k)
    ensures LeavesThenTurns(q[..k], q[..LeftAt(q, k)], q[LeftAt(q, k) + 1..k])
  {
    SkippedAreTurns(q, k - 1);
  }

  lemma LeftAtIs(q: Queue, k: nat, p: Queue, m: Queue)
    requires k <= |q| && LeavesThenTurns(q[..k], p, m)
    ensures LeftAt(q, k) == |p| && q[..|p|] == p && q[|p| + 1..k] == m
  {
    assert forall i :: 0 <= i < k ==> q[i] == q[..k][i];
    SkipsBackTo(q, |p|, k - 1);
  }

  /** The commands that an enter_combat finds before itself: blows are stripped, spam may be collapsed. */
  function Before(q: Queue): Queue {
    var t := Strip(q);
    if MAX_CMD_QUEUE - 8 < |t| <= MAX_CMD_QUEUE - 2 && StartsWithSpam(t) then t[1..] else t
  }

  predicate HasRoom(q: Queue) {
    |Strip(q)| < MAX_CMD_QUEUE - 1
  }

  lemma EnterPushed(q: Queue)
    requires |Strip(q)| <= MAX_CMD_QUEUE - 1
    ensures Push(Strip(q), ENTER_COMBAT) == if HasRoom(q) then Before(q) + [ENTER_COMBAT] else Before(q)
    ensures PushedAt(Strip(q), ENTER_COMBAT) == |Before(q)| && (!HasRoom(q) <==> |Before(q)| == MAX_CMD_QUEUE - 1)
  {
  }

  lemma CancelIs(b: Queue, v: Queue, p: Queue, m: Queue)
    requires LeavesThenTurns(b, p, m) && b <= v && |v| <= |b| + 1
    ensures LeftAt(v, |b|) == |p| && Cancel(v, |b|) == Sanitized(p, m)
  {
    assert v[..|b|] == b;
    LeftAtIs(v, |b|, p, m);
  }

  /**
   * Entering combat again after leaving it, with nothing but turns in between: both commands go and the turns
   * stay, in order. That holds exactly if there was room for the new command or there are no turns: on a full
   * queue the last turn is left in it twice.
   */
  lemma CancelsThePairIff(q: Queue, p: Queue, m: Queue)
    requires QueueOk(q) && LeavesThenTurns(Before(q), p, m)
    ensures Received(q, ENTER_COMBAT) == p + m <==> HasRoom(q) || m == []
    ensures !HasRoom(q) && m != [] ==> Received(q, ENTER_COMBAT) == p + m + [m[|m| - 1]]
  {
    StripKeepsOk(q);
    EnterPushed(q);
    CancelIs(Before(q), Push(Strip(q), ENTER_COMBAT), p, m);
  }

  /** Such a queue: full, with nothing to strip, and the last turn left in it twice. */
  lemma LastTurnTwice(moves: Queue)
    requires |moves| == MAX_CMD_QUEUE - 3 && forall i :: 0 <= i < |moves| ==> IsMove(moves[i])
    ensures Received(moves + [LEAVE_COMBAT, TURN_N], ENTER_COMBAT) == moves + [TURN_N, TURN_N]
  {
    var q, m := moves + [LEAVE_COMBAT, TURN_N], [TURN_N];
    assert forall c :: c in q ==> !IsBlow(c) && c != NOTHING;
    FilterAll(q, c => !IsBlow(c));
    assert q == moves + [LEAVE_COMBAT] + m;
    CancelsThePairIff(q, moves, m);
    assert moves + m + [m[0]] == moves + [TURN_N, TURN_N];
  }

  /** In every other case nothing is cancelled. */
  lemma CancelsNothingElse(q: Queue)
    requires QueueOk(q) && forall p, m :: !LeavesThenTurns(Before(q), p, m)
    ensures Received(q, ENTER_COMBAT) == if HasRoom(q) then Before(q) + [ENTER_COMBAT] else Before(q)
  {
    StripKeepsOk(q);
    EnterPushed(q);
    var b, v := Before(q), Push(Strip(q), ENTER_COMBAT);
    assert v[..|b|] == b;
    if 0 <= LeftAt(v, |b|) {
      LeftAtSplits(v, |b|);
    }
  }

  // ---------- what the commands do ----------

  datatype Tile = Tile(x: int, y: int)

  function Plus(a: Tile, b: Tile): Tile {
    Tile(a.x + b.x, a.y + b.y)
  }

  /** The eight directions, clockwise from north. */
  function Direction(k: int): Tile {
    if k == 0 then Tile(0, 1)
    else if k == 1 then Tile(1, 1)
    else if k == 2 then Tile(1, 0)
    else if k == 3 then Tile(1, -1)
    else if k == 4 then Tile(0, -1)
    else if k == 5 then Tile(-1, -1)
    else if k == 6 then Tile(-1, 0)
    else Tile(-1, 1)
  }

  /** The step of a command in tiles. */
  function Motion(c: Cmd): Tile {
    if IsMove(c) then Direction(c - MOVE_N) else if IsRun(c) then Direction(c - RUN_N) else Tile(0, 0)
  }

  function HasMotion(c: Cmd): (r: bool)
    ensures r <==> Motion(c) != Tile(0, 0)
  {
    IsMove(c) || IsRun(c)
  }

  /** The sum of the steps in a queue. */
  function Walk(q: Queue): Tile {
    if q == [] then Tile(0, 0) else Plus(Motion(q[0]), Walk(q[1..]))
  }

  datatype Pose = Pose(tile: Tile, sitting: bool, fighting: bool)

  /** What next_command does with a command, once its animation has ended. */
  function Do(s: Pose, c: Cmd): Pose {
    if IsMove(c) then s.(tile := Plus(s.tile, Motion(c)), fighting := false)
    else if c == SIT_DOWN then s.(sitting := true)
    else if c == STAND_UP then s.(sitting := false)
    else if c == ENTER_COMBAT || IsAttack(c) then s.(fighting := true)
    else if c == LEAVE_COMBAT then s.(fighting := false)
    else s
  }

  function Perform(s: Pose, q: Queue): Pose
    decreases |q|
  {
    if q == [] then s else Perform(Do(s, q[0]), q[1..])
  }

  lemma {:induction false} PerformConcat(s: Pose, a: Queue, b: Queue)
    ensures Perform(s, a + b) == Perform(Perform(s, a), b)
    decreases |a|
  {
    if a == [] {
      assert a + b == b;
    } else {
      assert (a + b)[1..] == a[1..] + b;
      PerformConcat(Do(s, a[0]), a[1..], b);
    }
  }

  lemma {:induction false} PerformTurns(s: Pose, m: Queue)
    requires AllTurns(m)
    ensures Perform(s, m) == s
    decreases |m|
  {
    if m != [] {
      PerformTurns(s, m[1..]);
    }
  }

  /** Blows say nothing about where an actor is and whether it sits. */
  lemma {:induction false} PerformStripped(s: Pose, t: Pose, q: Queue)
    requires s.tile == t.tile && s.sitting == t.sitting
    ensures Perform(s, q).tile == Perform(t, Strip(q)).tile && Perform(s, q).sitting == Perform(t, Strip(q)).sitting
    decreases |q|
  {
    if q != [] {
      if IsBlow(q[0]) {
        PerformStripped(Do(s, q[0]), t, q[1..]);
        assert Strip(q) == Strip(q[1..]);
      } else {
        PerformStripped(Do(s, q[0]), Do(t, q[0]), q[1..]);
        assert Strip(q) == [q[0]] + Strip(q[1..]);
      }
    }
  }

  lemma SpamLeavesNoTrace(s: Pose, q: Queue)
    requires StartsWithSpam(q)
    ensures Perform(s, q) == Perform(s, q[1..])
  {
    assert q[1..][0] == q[1] && q[1..][1..] == q[2..];
    assert Do(Do(s, q[0]), q[1]) == Do(s, q[1]);
    assert Perform(s, q) == Perform(Do(s, q[0]), q[1..]) == Perform(Do(Do(s, q[0]), q[1]), q[2..]);
  }

  lemma PerformWithOne(s: Pose, q: Queue, c: Cmd)
    ensures Perform(s, q + One(c)) == Do(Perform(s, q), c)
  {
    PerformConcat(s, q, One(c));
    PerformOne(Perform(s, q), c);
  }

  lemma PerformOne(s: Pose, c: Cmd)
    ensures Perform(s, One(c)) == Do(s, c)
    ensures Perform(s, [c]) == Do(s, c)
  {
    hide Motion;
    assert [c][1..] == [];
  }

  lemma SitStandReplaces(s: Pose, e: Cmd, c: Cmd)
    requires IsSitStand(e) && IsSitStand(c)
    ensures Do(Do(s, e), c) == Do(s, c)
  {
  }

  lemma PerformReplaced(s: Pose, q: Queue, c: Cmd)
    requires q != [] && IsSitStand(q[|q| - 1]) && IsSitStand(c)
    ensures Perform(s, q[..|q| - 1] + [c]) == Do(Perform(s, q), c)
  {
    hide Perform, Do;
    var r, e := q[..|q| - 1], q[|q| - 1];
    assert q == r + [e];
    PerformConcat(s, r, [e]);
    PerformConcat(s, r, [c]);
    PerformOne(Perform(s, r), e);
    PerformOne(Perform(s, r), c);
    SitStandReplaces(Perform(s, r), e, c);
  }

  /** Pushing means appending, as sit/stand spam leaves no trace; a full queue drops the command. */
  lemma PushPerforms(s: Pose, q: Queue, c: Cmd)
    ensures Perform(s, Push(q, c)) == if |q| < MAX_CMD_QUEUE - 1 then Do(Perform(s, q), c) else Perform(s, q)
  {
    hide Perform, Do, One, StartsWithSpam;
    PerformWithOne(s, q, c);
    if MAX_CMD_QUEUE - 8 < |q| < MAX_CMD_QUEUE - 1 {
      if StartsWithSpam(q) {
        SpamLeavesNoTrace(s, q);
        PerformWithOne(s, q[1..], c);
      } else if IsSitStand(c) && IsSitStand(q[|q| - 1]) {
        PerformReplaced(s, q, c);
      }
    }
  }

  predicate HasRoomFor(q: Queue, c: Cmd) {
    |if StripsBlows(c) then Strip(q) else q| < MAX_CMD_QUEUE - 1
  }

  /** The command moves the actor or makes it sit down or stand up. */
  predicate Stirs(p: Pose, c: Cmd) {
    IsMove(c) || (c == SIT_DOWN && !p.sitting) || (c == STAND_UP && p.sitting)
  }

  lemma StirsIff(p: Pose, c: Cmd)
    ensures Stirs(p, c) <==> Do(p, c).tile != p.tile || Do(p, c).sitting != p.sitting
  {
    hide Motion;
    if IsMove(c) {
      assert HasMotion(c);
    }
  }

  /**
   * Performing the queue ends on the same tile, sitting or standing the same, as performing the old queue and then
   * the new command, whatever was stripped, collapsed or cancelled: exactly unless a full queue drops a command that
   * would have changed one of the two.
   */
  lemma ReceivedKeepsTheEndIff(s: Pose, q: Queue, c: Cmd)
    requires QueueOk(q) && !IsShotInfo(c)
    ensures var e, f := Perform(s, Received(q, c)), Do(Perform(s, q), c);
            e.tile == f.tile && e.sitting == f.sitting <==> HasRoomFor(q, c) || !Stirs(Perform(s, q), c)
  {
    var t := if StripsBlows(c) then Strip(q) else q;
    StripKeepsOk(q);
    PerformStripped(s, s, q);
    PushPerforms(s, t, c);
    StirsIff(Perform(s, q), c);
    hide Perform, Strip, Push, PushedAt, Cancel, Before, HasRoom;
    if c == ENTER_COMBAT {
      CancelKeepsTheEnd(s, q);
    }
  }

  lemma CancelKeepsTheEnd(s: Pose, q: Queue)
    requires QueueOk(q)
    ensures var r, f := Perform(s, Received(q, ENTER_COMBAT)), Perform(s, Strip(q));
            r.tile == f.tile && r.sitting == f.sitting
  {
    StripKeepsOk(q);
    PushPerforms(s, Strip(q), ENTER_COMBAT);
    hide Perform, Strip, Push, PushedAt, Cancel, Received, Before, LeavesThenTurns;
    if HasRoom(q) {
      CancelPerforms(s, q);
    } else {
      CancelPerformsFull(s, q);
    }
  }

  /** On a full queue a cancelled pair goes as well, and the last turn that is left twice changes nothing. */
  lemma CancelPerformsFull(s: Pose, q: Queue)
    requires QueueOk(q) && !HasRoom(q)
    ensures var r, f := Perform(s, Received(q, ENTER_COMBAT)), Perform(s, Strip(q));
            && r.tile == f.tile && r.sitting == f.sitting
            && (r.fighting <==> (forall p, m :: LeavesThenTurns(Strip(q), p, m) ==> Perform(s, p).fighting)
                                && (f.fighting || exists p, m :: LeavesThenTurns(Strip(q), p, m)))
  {
    StripKeepsOk(q);
    assert Before(q) == Strip(q);
    hide Strip, Push, PushedAt, Cancel, Received, Before, Perform;
    forall p, m | LeavesThenTurns(Strip(q), p, m)
      ensures Perform(s, Received(q, ENTER_COMBAT)) == Perform(s, p)
      ensures Perform(s, Strip(q)) == Perform(s, p).(fighting := false)
    {
      CancelsThePairIff(q, p, m);
      PerformCancelled(s, p, m);
      if m != [] {
        var last := [m[|m| - 1]];
        PerformCancelled(s, p + m, last);
      }
    }
    if forall p, m :: !LeavesThenTurns(Strip(q), p, m) {
      CancelsNothingElse(q);
    }
  }

  /** The cancelled pair is followed by turns only: all it does is to make the actor fight. */
  lemma CancelPerforms(s: Pose, q: Queue)
    requires QueueOk(q) && HasRoom(q)
    ensures var r, f := Perform(s, Received(q, ENTER_COMBAT)), Perform(s, Push(Strip(q), ENTER_COMBAT));
            && r.tile == f.tile && r.sitting == f.sitting && f.fighting
            && (r.fighting <==> forall p, m :: LeavesThenTurns(Before(q), p, m) ==> Perform(s, p).fighting)
  {
    StripKeepsOk(q);
    EnterPushed(q);
    var b, v := Before(q), Push(Strip(q), ENTER_COMBAT);
    PerformConcat(s, b, [ENTER_COMBAT]);
    assert Perform(s, v) == Perform(s, b).(fighting := true);
    forall p, m | LeavesThenTurns(b, p, m)
      ensures Received(q, ENTER_COMBAT) == p + m && Perform(s, p + m) == Perform(s, p)
      ensures Perform(s, b) == Perform(s, p).(fighting := false)
    {
      CancelsThePairIff(q, p, m);
      PerformCancelled(s, p, m);
    }
    if forall p, m :: !LeavesThenTurns(b, p, m) {
      CancelsNothingElse(q);
    }
  }

  lemma PerformCancelled(s: Pose, r: Queue, m: Queue)
    requires AllTurns(m)
    ensures Perform(s, r + m) == Perform(s, r)
    ensures Perform(s, r + [LEAVE_COMBAT] + m) == Perform(s, r).(fighting := false)
  {
    PerformConcat(s, r, m);
    PerformTurns(Perform(s, r), m);
    PerformConcat(s, r + [LEAVE_COMBAT], m);
    PerformConcat(s, r, [LEAVE_COMBAT]);
    PerformTurns(Perform(s, r + [LEAVE_COMBAT]), m);
  }

  /** The last command that says anything about fighting is an attack that counts as a blow. */
  predicate EndsWithBlow(q: Queue) {
    q != [] &&
    var c := q[|q| - 1];
    (IsBlow(c) && IsAttack(c)) || (!IsMove(c) && c != LEAVE_COMBAT && EndsWithBlow(q[..|q| - 1]))
  }

  lemma {:induction false} StripLosesBlows(s: Pose, q: Queue)
    ensures Perform(s, q).fighting <==> EndsWithBlow(q) || Perform(s, Strip(q)).fighting
    decreases |q|
  {
    if q != [] {
      var r, c := q[..|q| - 1], q[|q| - 1];
      assert q == r + [c];
      StripLosesBlows(s, r);
      FilterAppend(r, c, x => !IsBlow(x));
      PerformConcat(s, r, [c]);
      PerformConcat(s, Strip(r), [c]);
      PerformOne(Perform(s, r), c);
      PerformOne(Perform(s, Strip(r)), c);
      hide Perform, Motion;
    }
  }

  /** What the fighting flag at the end depends on, case by case. */
  ghost predicate FightingIsKept(s: Pose, q: Queue, c: Cmd) {
    if c == DIE1 || c == DIE2 then !EndsWithBlow(q) || Perform(s, Strip(q)).fighting
    else if c == ENTER_COMBAT then
      && (forall p, m :: LeavesThenTurns(Before(q), p, m) ==> Perform(s, p).fighting)
      && (HasRoom(q) || Perform(s, Strip(q)).fighting || exists p, m :: LeavesThenTurns(Before(q), p, m))
    else if c == LEAVE_COMBAT then HasRoom(q) || !Perform(s, Strip(q)).fighting
    else
      || HasRoomFor(q, c)
      || ((IsMove(c) ==> !Perform(s, q).fighting) && (IsAttack(c) ==> Perform(s, q).fighting))
  }

  /**
   * The fighting flag at the end is kept as well, with these exceptions: the pair is cancelled after commands that
   * leave the actor not fighting; a deadly command strips the blows that made it fight; a full queue drops a command
   * that would have changed the flag.
   */
  lemma ReceivedKeepsFightingIff(s: Pose, q: Queue, c: Cmd)
    requires QueueOk(q) && !IsShotInfo(c)
    ensures Perform(s, Received(q, c)).fighting == Do(Perform(s, q), c).fighting <==> FightingIsKept(s, q, c)
  {
    if c == ENTER_COMBAT {
      EnterKeepsFightingIff(s, q);
    } else {
      PushPerforms(s, if StripsBlows(c) then Strip(q) else q, c);
      StripLosesBlows(s, q);
      hide Push, Perform, Strip, LeavesThenTurns, Before, EndsWithBlow, Motion;
    }
  }

  lemma EnterKeepsFightingIff(s: Pose, q: Queue)
    requires QueueOk(q)
    ensures Perform(s, Received(q, ENTER_COMBAT)).fighting <==> FightingIsKept(s, q, ENTER_COMBAT)
  {
    hide Perform, Strip, Received, LeavesThenTurns, HasRoomFor;
    if HasRoom(q) {
      CancelPerforms(s, q);
      hide Before;
    } else {
      FullIsBefore(q);
      hide Before;
      CancelPerformsFull(s, q);
    }
  }

  lemma FullIsBefore(q: Queue)
    requires QueueOk(q) && !HasRoom(q)
    ensures Before(q) == Strip(q)
  {
    StripKeepsOk(q);
  }
}
