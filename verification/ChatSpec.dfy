/**
 * The tables of channel tabs as values. A tab carries the index of its channel in the list of active channels;
 * when the list changes, the indices are changed one channel after the other, in place.
 */
module ChatSpec {
  import opened Seqs

  const MAX_CHAT_TABS: nat := 12
  const MAX_ACTIVE_CHANNELS: nat := 10
  const CHAT_CHANNEL1: nat := 5
  const CHAT_CHANNEL3: nat := 7
  const NMAX: nat := CHAT_CHANNEL3 - CHAT_CHANNEL1 + 1

  datatype Tab = Tab(channel: nat, id: int)

  datatype Slot = Free | Used(tab: Tab)

  // Channel numbers; 0 for none.
  type Channels = seq<nat>

  // ---------- changing one entry ----------

  /** The first used slot with a channel index, or the number of slots. */
  function FirstAt(s: seq<Slot>, c: nat): (r: nat)
    ensures r <= |s| && (r < |s| ==> s[r].Used? && s[r].tab.channel == c)
    ensures forall i :: 0 <= i < r ==> s[i].Free? || s[i].tab.channel != c
  {
    if s == [] || (s[0].Used? && s[0].tab.channel == c) then 0 else 1 + FirstAt(s[1..], c)
  }

  function Renumbered(s: seq<Slot>, a: nat, b: nat): seq<Slot> {
    var i := FirstAt(s, a);
    if a == b || i == |s| then s else s[i := Used(s[i].tab.(channel := b))]
  }

  function Closed(s: seq<Slot>, c: nat): seq<Slot> {
    var i := FirstAt(s, c);
    if i == |s| then s else s[i := Free]
  }

  function FirstFree(s: seq<Slot>): (r: nat)
    ensures r <= |s| && (r < |s| ==> s[r].Free?) && forall i :: 0 <= i < r ==> s[i].Used?
  {
    if s == [] || s[0].Free? then 0 else 1 + FirstFree(s[1..])
  }

  /** A new tab in the first free slot, if there is one. */
  function Opened(s: seq<Slot>, c: nat, id: int): seq<Slot> {
    var i := FirstFree(s);
    if i == |s| then s else s[i := Used(Tab(c, id))]
  }

  // ---------- one channel after the other ----------

  /** The position of a channel, or the length of the list. */
  function Pos(chans: Channels, chan: nat): (r: nat)
    ensures r <= |chans| && (r < |chans| ==> chans[r] == chan) && forall i :: 0 <= i < r ==> chans[i] != chan
  {
    if chans == [] || chans[0] == chan then 0 else 1 + Pos(chans[1..], chan)
  }

  /** What becomes of the tab of the k-th old channel. */
  function Moved(s: seq<Slot>, was: Channels, now: Channels, k: nat): seq<Slot>
    requires k < |was|
  {
    if was[k] == 0 then s
    else if Pos(now, was[k]) == |now| then Closed(s, k + CHAT_CHANNEL1)
    else Renumbered(s, k + CHAT_CHANNEL1, Pos(now, was[k]) + CHAT_CHANNEL1)
  }

  /** The first loop of set_channel_tabs over the channels below k. */
  function Sequential(s: seq<Slot>, was: Channels, now: Channels, k: nat): seq<Slot>
    requires k <= |was|
    decreases k
  {
    if k == 0 then s else Moved(Sequential(s, was, now, k - 1), was, now, k - 1)
  }

  /** What should become of a tab, by the channels below k. */
  function Target(x: Slot, was: Channels, now: Channels, k: nat): Slot
    requires k <= |was|
  {
    if x.Free? then x else
      var i := x.tab.channel - CHAT_CHANNEL1;
      if !(0 <= i < k) || was[i] == 0 then x
      else if Pos(now, was[i]) == |now| then Free
      else Used(x.tab.(channel := Pos(now, was[i]) + CHAT_CHANNEL1))
  }

  /** All tabs renumbered at once. */
  function Simultaneous(s: seq<Slot>, was: Channels, now: Channels, k: nat): (r: seq<Slot>)
    requires k <= |was|
    ensures |r| == |s| && forall i :: 0 <= i < |s| ==> r[i] == Target(s[i], was, now, k)
  {
    seq(|s|, i requires 0 <= i < |s| => Target(s[i], was, now, k))
  }

  ghost predicate DistinctChannels(chans: Channels) {
    forall i, j :: 0 <= i < j < |chans| && chans[i] != 0 ==> chans[i] != chans[j]
  }

  ghost predicate DistinctTabs(s: seq<Slot>) {
    forall i, j :: 0 <= i < j < |s| && s[i].Used? && s[j].Used? ==> s[i].tab.channel != s[j].tab.channel
  }

  /** No channel moves up into a position that still has a tab of its own waiting. */
  ghost predicate NoClash(was: Channels, now: Channels) {
    forall i :: 0 <= i < |was| && was[i] != 0 ==> LandsClear(was, now, i)
  }

  predicate LandsClear(was: Channels, now: Channels, i: nat)
    requires i < |was|
  {
    var j := Pos(now, was[i]);
    i < j < |now| && j < |was| ==> was[j] == 0
  }

  lemma {:induction false} SequentialIsSimultaneous(s: seq<Slot>, was: Channels, now: Channels, k: nat)
    requires k <= |was| == |now| && DistinctTabs(s) && NoClash(was, now)
    ensures Sequential(s, was, now, k) == Simultaneous(s, was, now, k)
    decreases k
  {
    if k == 0 {
      assert Simultaneous(s, was, now, 0) == s;
    } else {
      SequentialIsSimultaneous(s, was, now, k - 1);
      MovedIsNextStage(s, was, now, k - 1);
    }
  }

  lemma MovedIsNextStage(s: seq<Slot>, was: Channels, now: Channels, k: nat)
    requires k < |was| == |now| && DistinctTabs(s) && NoClash(was, now)
    ensures Moved(Simultaneous(s, was, now, k), was, now, k) == Simultaneous(s, was, now, k + 1)
  {
    var a, b, c := Simultaneous(s, was, now, k), Simultaneous(s, was, now, k + 1), k + CHAT_CHANNEL1;
    if was[k] != 0 {
      forall i | 0 <= i < |s| && a[i].Used? && a[i].tab.channel == c ensures s[i] == a[i] {
        var t := s[i].tab.channel - CHAT_CHANNEL1;
        if 0 <= t < k && was[t] != 0 {
          assert LandsClear(was, now, t);
        }
      }
      var f := FirstAt(a, c);
      forall i | 0 <= i < |s| && i != f ensures a[i] == b[i] {
        if f < |s| && s[i].Used? {
          assert s[i].tab.channel != s[f].tab.channel;
        }
      }
    }
    assert Moved(a, was, now, k) == b;
  }

  /** The two tabs of a clash, the one that moves up first. */
  function ClashingTabs(i: nat, j: nat): (s: seq<Slot>)
    requires i < j
    ensures DistinctTabs(s)
  {
    [Used(Tab(i + CHAT_CHANNEL1, 0)), Used(Tab(j + CHAT_CHANNEL1, 1))]
  }

  lemma {:induction false} BeforeTheClash(was: Channels, now: Channels, i: nat, j: nat, k: nat)
    requires |was| == |now| && i < j < |was| && was[i] != 0 && Pos(now, was[i]) == j && k <= j
    ensures var s := Sequential(ClashingTabs(i, j), was, now, k);
            if k <= i then s == ClashingTabs(i, j)
            else s == [Used(Tab(j + CHAT_CHANNEL1, 0)), Used(Tab(j + CHAT_CHANNEL1, 1))]
    decreases k
  {
    if 0 < k {
      BeforeTheClash(was, now, i, j, k - 1);
    }
  }

  /** The wrong tab is found for channel j; from then on the tab of channel i is never where it belongs. */
  lemma {:induction false} AfterTheClash(was: Channels, now: Channels, i: nat, j: nat, k: nat)
    requires |was| == |now| && i < j < k <= |was| && was[i] != 0 && was[j] != 0 && Pos(now, was[i]) == j
    requires DistinctChannels(was) && DistinctChannels(now)
    ensures var s := Sequential(ClashingTabs(i, j), was, now, k);
            && |s| == 2 && s[1] == Used(Tab(j + CHAT_CHANNEL1, 1))
            && (s[0].Used? ==> s[0].tab.channel != j + CHAT_CHANNEL1)
    decreases k
  {
    if k == j + 1 {
      BeforeTheClash(was, now, i, j, j);
      assert was[i] != was[j];
    } else {
      AfterTheClash(was, now, i, j, k - 1);
      if was[k - 1] != 0 {
        assert was[i] != was[k - 1];
      }
    }
  }

  ghost predicate AlwaysRight(was: Channels, now: Channels)
    requires |was| == |now|
  {
    forall s :: DistinctTabs(s) ==> Sequential(s, was, now, |was|) == Simultaneous(s, was, now, |was|)
  }

  /**
   * Renumbering one channel after the other does the same as renumbering all at once, for every table of tabs,
   * exactly if no channel moves up into a position whose own tab is still to be dealt with.
   */
  lemma SequentialIsRightIff(was: Channels, now: Channels)
    requires |was| == |now| && DistinctChannels(was) && DistinctChannels(now)
    ensures AlwaysRight(was, now) <==> NoClash(was, now)
  {
    if NoClash(was, now) {
      forall s | DistinctTabs(s) ensures Sequential(s, was, now, |was|) == Simultaneous(s, was, now, |was|) {
        SequentialIsSimultaneous(s, was, now, |was|);
      }
    } else {
      var i :| 0 <= i < |was| && was[i] != 0 && !LandsClear(was, now, i);
      var j := Pos(now, was[i]);
      AfterTheClash(was, now, i, j, |was|);
      var s := ClashingTabs(i, j);
      assert Simultaneous(s, was, now, |was|)[0] == Used(Tab(j + CHAT_CHANNEL1, 0));
    }
  }

  /** The case that the callers rely on: channels only move down. */
  lemma MovingDownIsClear(was: Channels, now: Channels)
    requires |was| == |now|
    requires forall i :: 0 <= i < |was| && was[i] != 0 ==> Pos(now, was[i]) <= i || Pos(now, was[i]) == |now|
    ensures NoClash(was, now)
  {
  }

  // ---------- what the tabs denote ----------

  predicate IsChannelTab(x: Slot, n: nat) {
    x.Used? && CHAT_CHANNEL1 <= x.tab.channel < CHAT_CHANNEL1 + n
  }

  function Denoted(x: Slot, chans: Channels): nat
    requires IsChannelTab(x, |chans|)
  {
    chans[x.tab.channel - CHAT_CHANNEL1]
  }

  /** Every channel tab is that of an active channel. */
  ghost predicate Live(s: seq<Slot>, chans: Channels) {
    forall i :: 0 <= i < |s| && IsChannelTab(s[i], |chans|) ==> Denoted(s[i], chans) != 0
  }

  /** Every active channel has a tab. */
  ghost predicate Complete(s: seq<Slot>, chans: Channels) {
    forall k :: 0 <= k < |chans| && chans[k] != 0 ==> FirstAt(s, k + CHAT_CHANNEL1) < |s|
  }

  /** Tabs of channels that stay denote the same channel; those of channels left are gone; other tabs are untouched. */
  lemma TabsKeepTheirChannel(s: seq<Slot>, was: Channels, now: Channels)
    requires |was| == |now| && DistinctTabs(s) && Live(s, was)
    requires NoClash(was, now) && DistinctChannels(was) && DistinctChannels(now)
    ensures var r := Sequential(s, was, now, |was|);
            && |r| == |s| && DistinctTabs(r) && Live(r, now)
            && forall i :: 0 <= i < |s| ==>
                 if IsChannelTab(s[i], |was|) then
                   if Pos(now, Denoted(s[i], was)) < |now|
                   then && IsChannelTab(r[i], |now|) && r[i].tab.id == s[i].tab.id
                        && Denoted(r[i], now) == Denoted(s[i], was)
                   else r[i] == Free
                 else r[i] == s[i]
  {
    SequentialIsSimultaneous(s, was, now, |was|);
    TargetsAreDistinct(s, was, now);
    hide DistinctTabs, Sequential, Simultaneous, NoClash, DistinctChannels;
    var r := Simultaneous(s, was, now, |was|);
    forall i | 0 <= i < |s|
      ensures if IsChannelTab(s[i], |was|) then
                if Pos(now, Denoted(s[i], was)) < |now|
                then && IsChannelTab(r[i], |now|) && r[i].tab.id == s[i].tab.id
                     && Denoted(r[i], now) == Denoted(s[i], was)
                else r[i] == Free
              else r[i] == s[i]
    {
      assert IsChannelTab(s[i], |was|) ==> Denoted(s[i], was) != 0;
    }
  }

  lemma TargetsAreDistinct(s: seq<Slot>, was: Channels, now: Channels)
    requires |was| == |now| && DistinctTabs(s) && Live(s, was) && DistinctChannels(was) && DistinctChannels(now)
    ensures DistinctTabs(Simultaneous(s, was, now, |was|))
  {
    var r := Simultaneous(s, was, now, |was|);
    forall i, j | 0 <= i < j < |r| && r[i].Used? && r[j].Used? ensures r[i].tab.channel != r[j].tab.channel {
      TargetsDiffer(s[i], s[j], was, now);
    }
  }

  lemma TargetsDiffer(x: Slot, y: Slot, was: Channels, now: Channels)
    requires |was| == |now| && x.Used? && y.Used? && x.tab.channel != y.tab.channel && DistinctChannels(was)
    requires IsChannelTab(x, |was|) ==> Denoted(x, was) != 0
    requires IsChannelTab(y, |was|) ==> Denoted(y, was) != 0
    requires Target(x, was, now, |was|).Used? && Target(y, was, now, |was|).Used?
    ensures Target(x, was, now, |was|).tab.channel != Target(y, was, now, |was|).tab.channel
  {
    if IsChannelTab(x, |was|) && IsChannelTab(y, |was|) {
      var i, j := x.tab.channel - CHAT_CHANNEL1, y.tab.channel - CHAT_CHANNEL1;
      assert was[i] != was[j];
    }
  }

  // ---------- the tabs of new channels ----------

  predicate IsNew(was: Channels, now: Channels, k: nat)
    requires k < |now|
  {
    now[k] != 0 && Pos(was, now[k]) == |was|
  }

  /** The second loop of set_channel_tabs: a tab for each channel below k that is new. */
  function WithNew(s: seq<Slot>, was: Channels, now: Channels, k: nat, ids: seq<int>): (r: seq<Slot>)
    requires k <= |now| == |ids|
    ensures |r| == |s|
    decreases k
  {
    if k == 0 then s else
      var r := WithNew(s, was, now, k - 1, ids);
      if IsNew(was, now, k - 1) then Opened(r, k - 1 + CHAT_CHANNEL1, ids[k - 1]) else r
  }

  /** set_channel_tabs. */
  function SetTabs(s: seq<Slot>, was: Channels, now: Channels, ids: seq<int>): seq<Slot>
    requires |was| == |now| == |ids|
  {
    WithNew(Sequential(s, was, now, |was|), was, now, |now|, ids)
  }

  ghost predicate Settable(s: seq<Slot>, was: Channels, now: Channels) {
    && |was| == |now| && DistinctTabs(s) && Live(s, was)
    && NoClash(was, now) && DistinctChannels(was) && DistinctChannels(now)
  }

  /** The channel tabs are those of channels that stay and of new ones below k. */
  ghost predicate Stays(s: seq<Slot>, was: Channels, now: Channels, k: nat)
    requires |was| == |now|
  {
    forall i :: 0 <= i < |s| ==> StaysAt(s[i], was, now, k)
  }

  predicate StaysAt(x: Slot, was: Channels, now: Channels, k: nat)
    requires |was| == |now|
  {
    IsChannelTab(x, |now|) ==>
      var t := x.tab.channel - CHAT_CHANNEL1;
      now[t] != 0 && (t < k || !IsNew(was, now, t))
  }

  lemma SurvivorsStay(s: seq<Slot>, was: Channels, now: Channels)
    requires Settable(s, was, now)
    ensures var r := Sequential(s, was, now, |was|); |r| == |s| && DistinctTabs(r) && Stays(r, was, now, 0)
  {
    TabsKeepTheirChannel(s, was, now);
    var r := Sequential(s, was, now, |was|);
    hide DistinctTabs, Sequential, Live, NoClash, DistinctChannels;
    forall i | 0 <= i < |r| ensures StaysAt(r[i], was, now, 0) {
      if IsChannelTab(r[i], |now|) {
        assert was[s[i].tab.channel - CHAT_CHANNEL1] == Denoted(s[i], was);
      }
    }
  }

  /** An index that no tab keeps is free, and a tab put there keeps the rest as it is. */
  lemma StaysMeansFree(s: seq<Slot>, was: Channels, now: Channels, k: nat)
    requires |was| == |now| && k < |now| && IsNew(was, now, k) && Stays(s, was, now, k)
    ensures FirstAt(s, k + CHAT_CHANNEL1) == |s|
  {
    forall i | 0 <= i < |s| && s[i].Used? ensures s[i].tab.channel != k + CHAT_CHANNEL1 {
      assert StaysAt(s[i], was, now, k);
    }
  }

  lemma OpenedIsDistinct(s: seq<Slot>, c: nat, id: int)
    requires DistinctTabs(s) && FirstAt(s, c) == |s|
    ensures DistinctTabs(Opened(s, c, id))
    ensures forall i :: 0 <= i < |s| && s[i].Used? ==> Opened(s, c, id)[i] == s[i]
  {
  }

  lemma OpenedKeeps(s: seq<Slot>, was: Channels, now: Channels, k: nat, id: int)
    requires |was| == |now| && k < |now| && IsNew(was, now, k) && Stays(s, was, now, k) && DistinctTabs(s)
    ensures var w := Opened(s, k + CHAT_CHANNEL1, id);
            && DistinctTabs(w) && Stays(w, was, now, k + 1)
            && forall i :: 0 <= i < |s| && s[i].Used? ==> w[i] == s[i]
  {
    StaysMeansFree(s, was, now, k);
    StaysOn(s, was, now, k);
    OpenedIsDistinct(s, k + CHAT_CHANNEL1, id);
    hide DistinctTabs, FirstAt;
  }

  lemma StaysOn(s: seq<Slot>, was: Channels, now: Channels, k: nat)
    requires |was| == |now| && Stays(s, was, now, k)
    ensures Stays(s, was, now, k + 1)
  {
    forall i | 0 <= i < |s| ensures StaysAt(s[i], was, now, k + 1) {
      assert StaysAt(s[i], was, now, k);
    }
  }

  /** The index of a new channel is free when its tab is added. */
  lemma {:induction false} NewIndexIsFree(s: seq<Slot>, was: Channels, now: Channels, k: nat, ids: seq<int>)
    requires |was| == |now| == |ids| && k <= |now| && DistinctTabs(s) && Stays(s, was, now, 0)
    ensures var w := WithNew(s, was, now, k, ids);
            && DistinctTabs(w) && Stays(w, was, now, k)
            && (k < |now| && IsNew(was, now, k) ==> FirstAt(w, k + CHAT_CHANNEL1) == |w|)
            && forall i :: 0 <= i < |s| && s[i].Used? ==> w[i] == s[i]
    decreases k
  {
    hide DistinctTabs, Stays, IsNew, Opened;
    if 0 < k {
      NewIndexIsFree(s, was, now, k - 1, ids);
      var v := WithNew(s, was, now, k - 1, ids);
      if IsNew(was, now, k - 1) {
        OpenedKeeps(v, was, now, k - 1, ids[k - 1]);
      } else {
        StaysOn(v, was, now, k - 1);
      }
    }
    if k < |now| && IsNew(was, now, k) {
      StaysMeansFree(WithNew(s, was, now, k, ids), was, now, k);
    }
  }

  /** Setting the channels keeps the tabs distinct and alive, from one list of channels to the next. */
  lemma SetTabsKeeps(s: seq<Slot>, was: Channels, now: Channels, ids: seq<int>)
    requires Settable(s, was, now) && |ids| == |now|
    ensures DistinctTabs(SetTabs(s, was, now, ids)) && Live(SetTabs(s, was, now, ids), now)
  {
    SurvivorsStay(s, was, now);
    NewIndexIsFree(Sequential(s, was, now, |was|), was, now, |now|, ids);
    StaysAreLive(SetTabs(s, was, now, ids), was, now, |now|);
  }

  lemma StaysAreLive(s: seq<Slot>, was: Channels, now: Channels, k: nat)
    requires |was| == |now| && Stays(s, was, now, k)
    ensures Live(s, now)
  {
    forall i | 0 <= i < |s| && IsChannelTab(s[i], |now|) ensures Denoted(s[i], now) != 0 {
      assert StaysAt(s[i], was, now, k);
    }
  }

  lemma {:induction false} NewTabsAreThere(s: seq<Slot>, was: Channels, now: Channels, k: nat, ids: seq<int>, j: nat)
    requires |was| == |now| == |ids| && j < k <= |now| && IsNew(was, now, j)
    requires FirstFree(WithNew(s, was, now, k, ids)) < |s|
    ensures var w := WithNew(s, was, now, k, ids); FirstAt(w, j + CHAT_CHANNEL1) < |w|
    decreases k
  {
    var w, v := WithNew(s, was, now, k, ids), WithNew(s, was, now, k - 1, ids);
    assert v[FirstFree(w)].Free?;
    if j < k - 1 {
      NewTabsAreThere(s, was, now, k - 1, ids, j);
      assert w[FirstAt(v, j + CHAT_CHANNEL1)] == v[FirstAt(v, j + CHAT_CHANNEL1)];
    } else {
      assert w[FirstFree(v)] == Used(Tab(j + CHAT_CHANNEL1, ids[j]));
    }
  }

  /** The tab of a channel that stays is at the new position of the channel. */
  lemma SurvivorIsThere(s: seq<Slot>, was: Channels, now: Channels, k: nat)
    requires Settable(s, was, now) && Complete(s, was) && k < |now| && now[k] != 0 && !IsNew(was, now, k)
    ensures var r := Sequential(s, was, now, |was|);
            |r| == |s| && exists i :: 0 <= i < |r| && r[i].Used? && r[i].tab.channel == k + CHAT_CHANNEL1
  {
    TabsKeepTheirChannel(s, was, now);
    hide Sequential, DistinctTabs, NoClash, Live;
    var p := Pos(was, now[k]);
    var i := FirstAt(s, p + CHAT_CHANNEL1);
    assert Denoted(s[i], was) == now[k];
    assert Pos(now, now[k]) == k;
  }

  /** If the table has not run full, every active channel has its tab. */
  lemma SetTabsCompletes(s: seq<Slot>, was: Channels, now: Channels, ids: seq<int>)
    requires Settable(s, was, now) && |ids| == |now| && Complete(s, was)
    requires FirstFree(SetTabs(s, was, now, ids)) < |s|
    ensures Complete(SetTabs(s, was, now, ids), now)
  {
    var r, w := Sequential(s, was, now, |was|), SetTabs(s, was, now, ids);
    SurvivorsStay(s, was, now);
    NewIndexIsFree(r, was, now, |now|, ids);
    hide Sequential, Settable, DistinctTabs, Stays, IsNew, Pos;
    forall k | 0 <= k < |now| && now[k] != 0 ensures FirstAt(w, k + CHAT_CHANNEL1) < |w| {
      if IsNew(was, now, k) {
        NewTabsAreThere(r, was, now, |now|, ids, k);
      } else {
        SurvivorIsThere(s, was, now, k);
        var i :| 0 <= i < |r| && r[i].Used? && r[i].tab.channel == k + CHAT_CHANNEL1;
        assert w[i] == r[i];
      }
    }
  }

  // ---------- the tab bar, which has no gaps ----------

  function Compact(s: seq<Slot>): seq<Tab> {
    if s == [] then [] else (if s[0].Used? then [s[0].tab] else []) + Compact(s[1..])
  }

  function AsSlots(bar: seq<Tab>): (s: seq<Slot>)
    ensures |s| == |bar| && forall i :: 0 <= i < |bar| ==> s[i] == Used(bar[i])
  {
    seq(|bar|, i requires 0 <= i < |bar| => Used(bar[i]))
  }

  function BarFirst(bar: seq<Tab>, c: nat): (r: nat)
    ensures r <= |bar| && (r < |bar| ==> bar[r].channel == c) && forall i :: 0 <= i < r ==> bar[i].channel != c
  {
    if bar == [] || bar[0].channel == c then 0 else 1 + BarFirst(bar[1..], c)
  }

  function BarRenumbered(bar: seq<Tab>, a: nat, b: nat): seq<Tab> {
    var i := BarFirst(bar, a);
    if a == b || i == |bar| then bar else bar[i := bar[i].(channel := b)]
  }

  function BarRemoved(bar: seq<Tab>, c: nat): seq<Tab> {
    var i := BarFirst(bar, c);
    if i == |bar| then bar else bar[..i] + bar[i + 1..]
  }

  function BarAdded(bar: seq<Tab>, c: nat, id: int): seq<Tab> {
    if BarFirst(bar, c) < |bar| || |bar| >= MAX_CHAT_TABS then bar else bar + [Tab(c, id)]
  }

  function BarMoved(bar: seq<Tab>, was: Channels, now: Channels, k: nat): seq<Tab>
    requires k < |was|
  {
    if was[k] == 0 then bar
    else if Pos(now, was[k]) == |now| then BarRemoved(bar, k + CHAT_CHANNEL1)
    else BarRenumbered(bar, k + CHAT_CHANNEL1, Pos(now, was[k]) + CHAT_CHANNEL1)
  }

  function BarSequential(bar: seq<Tab>, was: Channels, now: Channels, k: nat): seq<Tab>
    requires k <= |was|
    decreases k
  {
    if k == 0 then bar else BarMoved(BarSequential(bar, was, now, k - 1), was, now, k - 1)
  }

  lemma CompactFirst(x: Slot, s: seq<Slot>)
    ensures Compact([x] + s) == if x.Used? then [x.tab] + Compact(s) else Compact(s)
  {
    assert ([x] + s)[1..] == s;
  }

  lemma ClosedFirst(x: Slot, s: seq<Slot>, c: nat)
    ensures Closed([x] + s, c) == if x.Used? && x.tab.channel == c then [Free] + s else [x] + Closed(s, c)
  {
    assert ([x] + s)[1..] == s;
  }

  lemma BarFirstFirst(x: Tab, bar: seq<Tab>, c: nat)
    ensures BarFirst([x] + bar, c) == if x.channel == c then 0 else 1 + BarFirst(bar, c)
  {
    assert ([x] + bar)[1..] == bar;
  }

  lemma RemovedBehind(x: Tab, bar: seq<Tab>, i: nat)
    requires i < |bar|
    ensures ([x] + bar)[..i + 1] + ([x] + bar)[i + 2..] == [x] + (bar[..i] + bar[i + 1..])
  {
  }

  lemma BarRemovedFirst(x: Tab, bar: seq<Tab>, c: nat)
    ensures BarRemoved([x] + bar, c) == if x.channel == c then bar else [x] + BarRemoved(bar, c)
  {
    BarFirstFirst(x, bar, c);
    hide BarFirst;
    if x.channel == c {
      assert ([x] + bar)[..0] + ([x] + bar)[1..] == bar;
    } else if BarFirst(bar, c) < |bar| {
      RemovedBehind(x, bar, BarFirst(bar, c));
    }
  }

  lemma {:induction false} CompactClosed(s: seq<Slot>, c: nat)
    ensures Compact(Closed(s, c)) == BarRemoved(Compact(s), c)
  {
    if s != [] {
      var x, rest := s[0], s[1..];
      assert s == [x] + rest;
      hide Closed, BarRemoved, Compact;
      CompactClosed(rest, c);
      CompactFirst(x, rest);
      ClosedFirst(x, rest, c);
      CompactFirst(Free, rest);
      CompactFirst(x, Closed(rest, c));
      if x.Used? {
        BarRemovedFirst(x.tab, Compact(rest), c);
      }
    }
  }

  lemma RenumberedFirst(x: Slot, s: seq<Slot>, a: nat, b: nat)
    requires a != b
    ensures Renumbered([x] + s, a, b) ==
            if x.Used? && x.tab.channel == a then [Used(x.tab.(channel := b))] + s else [x] + Renumbered(s, a, b)
  {
    assert ([x] + s)[1..] == s;
  }

  lemma BarRenumberedFirst(x: Tab, bar: seq<Tab>, a: nat, b: nat)
    requires a != b
    ensures BarRenumbered([x] + bar, a, b) ==
            if x.channel == a then [x.(channel := b)] + bar else [x] + BarRenumbered(bar, a, b)
  {
    assert ([x] + bar)[1..] == bar;
  }

  lemma {:induction false} CompactRenumbered(s: seq<Slot>, a: nat, b: nat)
    ensures Compact(Renumbered(s, a, b)) == BarRenumbered(Compact(s), a, b)
  {
    if s != [] && a != b {
      var x, rest := s[0], s[1..];
      assert s == [x] + rest;
      hide Renumbered, BarRenumbered, Compact;
      CompactRenumbered(rest, a, b);
      CompactFirst(x, rest);
      RenumberedFirst(x, rest, a, b);
      CompactFirst(x, Renumbered(rest, a, b));
      if x.Used? {
        CompactFirst(Used(x.tab.(channel := b)), rest);
        BarRenumberedFirst(x.tab, Compact(rest), a, b);
      }
    }
  }

  lemma {:induction false} CompactAsSlots(bar: seq<Tab>)
    ensures Compact(AsSlots(bar)) == bar
  {
    if bar != [] {
      CompactAsSlots(bar[1..]);
      assert AsSlots(bar)[1..] == AsSlots(bar[1..]);
    }
  }

  /** The bar behaves like a table of slots whose gaps are closed. */
  lemma {:induction false} BarIsCompact(bar: seq<Tab>, was: Channels, now: Channels, k: nat)
    requires k <= |was|
    ensures BarSequential(bar, was, now, k) == Compact(Sequential(AsSlots(bar), was, now, k))
    decreases k
  {
    CompactAsSlots(bar);
    hide Compact, Closed, Renumbered, BarRemoved, BarRenumbered, AsSlots;
    if 0 < k {
      BarIsCompact(bar, was, now, k - 1);
      var s := Sequential(AsSlots(bar), was, now, k - 1);
      if was[k - 1] != 0 {
        CompactClosed(s, k - 1 + CHAT_CHANNEL1);
        CompactRenumbered(s, k - 1 + CHAT_CHANNEL1, Pos(now, was[k - 1]) + CHAT_CHANNEL1);
      }
    }
  }

  /** What a tab stands for: a channel by its number, or something else by its index. */
  datatype Meaning = Channel(number: nat, id: int) | Other(index: nat, id: int)

  function MeaningOf(x: Tab, chans: Channels): Meaning {
    if IsChannelTab(Used(x), |chans|) then Channel(Denoted(Used(x), chans), x.id) else Other(x.channel, x.id)
  }

  function Meanings(bar: seq<Tab>, chans: Channels): (r: seq<Meaning>)
    ensures |r| == |bar|
  {
    if bar == [] then [] else [MeaningOf(bar[0], chans)] + Meanings(bar[1..], chans)
  }

  predicate Remains(m: Meaning, now: Channels) {
    m.Channel? ==> Pos(now, m.number) < |now|
  }

  lemma MeaningIsKept(x: Tab, was: Channels, now: Channels)
    requires |was| == |now| && (IsChannelTab(Used(x), |was|) ==> Denoted(Used(x), was) != 0)
    ensures var y := Target(Used(x), was, now, |was|);
            && (y.Used? <==> Remains(MeaningOf(x, was), now))
            && (y.Used? ==> MeaningOf(y.tab, now) == MeaningOf(x, was))
  {
  }

  lemma {:induction false} MeaningsAreFiltered(bar: seq<Tab>, was: Channels, now: Channels)
    requires |was| == |now| && Live(AsSlots(bar), was)
    ensures Meanings(Compact(Simultaneous(AsSlots(bar), was, now, |was|)), now) ==
            Filter(Meanings(bar, was), m => Remains(m, now))
  {
    if bar != [] {
      var s, rest := Simultaneous(AsSlots(bar), was, now, |was|), AsSlots(bar[1..]);
      assert rest == AsSlots(bar)[1..] && s[1..] == Simultaneous(rest, was, now, |was|);
      hide MeaningOf, Remains, Target, Denoted, IsChannelTab;
      MeaningsAreFiltered(bar[1..], was, now);
      MeaningIsKept(bar[0], was, now);
      assert s[0] == Target(Used(bar[0]), was, now, |was|);
      assert Meanings(bar, was)[1..] == Meanings(bar[1..], was);
      if s[0].Used? {
        assert Compact(s)[1..] == Compact(s[1..]);
      } else {
        assert Compact(s) == Compact(s[1..]);
      }
    }
  }

  /** In the bar, too, tabs of channels left are gone and all others stand for what they did, in the same order. */
  lemma BarKeepsItsChannels(bar: seq<Tab>, was: Channels, now: Channels)
    requires Settable(AsSlots(bar), was, now)
    ensures Meanings(BarSequential(bar, was, now, |was|), now) == Filter(Meanings(bar, was), m => Remains(m, now))
  {
    BarIsCompact(bar, was, now, |was|);
    SequentialIsSimultaneous(AsSlots(bar), was, now, |was|);
    MeaningsAreFiltered(bar, was, now);
  }

  function BarWithNew(bar: seq<Tab>, was: Channels, now: Channels, k: nat, ids: seq<int>): seq<Tab>
    requires k <= |now| == |ids|
    decreases k
  {
    if k == 0 then bar else
      var r := BarWithNew(bar, was, now, k - 1, ids);
      if IsNew(was, now, k - 1) then BarAdded(r, k - 1 + CHAT_CHANNEL1, ids[k - 1]) else r
  }

  function SetBar(bar: seq<Tab>, was: Channels, now: Channels, ids: seq<int>): seq<Tab>
    requires |was| == |now| == |ids|
  {
    BarWithNew(BarSequential(bar, was, now, |was|), was, now, |now|, ids)
  }

  lemma {:induction false} CompactMembers(s: seq<Slot>)
    ensures forall t :: t in Compact(s) ==> Used(t) in s
  {
    if s != [] {
      CompactMembers(s[1..]);
    }
  }

  ghost predicate DistinctBar(bar: seq<Tab>) {
    forall i, j :: 0 <= i < j < |bar| ==> bar[i].channel != bar[j].channel
  }

  lemma {:induction false} CompactDistinct(s: seq<Slot>)
    requires DistinctTabs(s)
    ensures DistinctBar(Compact(s))
  {
    if s != [] {
      CompactDistinct(s[1..]);
      CompactMembers(s[1..]);
      var c, d := Compact(s), Compact(s[1..]);
      if s[0].Used? {
        assert c == [s[0].tab] + d;
        forall i | 0 <= i < |d| ensures d[i].channel != s[0].tab.channel {
          assert d[i] in d;
        }
      }
    }
  }

  lemma BarAddedKeeps(bar: seq<Tab>, was: Channels, now: Channels, k: nat, id: int)
    requires |was| == |now| && k < |now| && IsNew(was, now, k) && Stays(AsSlots(bar), was, now, k) && DistinctBar(bar)
    ensures var w := BarAdded(bar, k + CHAT_CHANNEL1, id);
            && DistinctBar(w) && Stays(AsSlots(w), was, now, k + 1) && bar <= w
  {
    BarStaysMeansFree(bar, was, now, k);
    StaysOn(AsSlots(bar), was, now, k);
    var w := BarAdded(bar, k + CHAT_CHANNEL1, id);
    forall i | 0 <= i < |w| ensures StaysAt(AsSlots(w)[i], was, now, k + 1) {
      assert i < |bar| ==> StaysAt(AsSlots(bar)[i], was, now, k + 1);
    }
  }

  lemma BarStaysMeansFree(bar: seq<Tab>, was: Channels, now: Channels, k: nat)
    requires |was| == |now| && k < |now| && IsNew(was, now, k) && Stays(AsSlots(bar), was, now, k)
    ensures BarFirst(bar, k + CHAT_CHANNEL1) == |bar|
  {
    forall i | 0 <= i < |bar| ensures bar[i].channel != k + CHAT_CHANNEL1 {
      assert StaysAt(AsSlots(bar)[i], was, now, k);
      StaysElsewhere(bar[i], was, now, k);
    }
    hide IsNew, Stays, AsSlots;
  }

  lemma StaysElsewhere(x: Tab, was: Channels, now: Channels, k: nat)
    requires |was| == |now| && k < |now| && IsNew(was, now, k) && StaysAt(Used(x), was, now, k)
    ensures x.channel != k + CHAT_CHANNEL1
  {
  }

  lemma {:induction false} BarNewIndexIsFree(bar: seq<Tab>, was: Channels, now: Channels, k: nat, ids: seq<int>)
    requires |was| == |now| == |ids| && k <= |now| && DistinctBar(bar) && Stays(AsSlots(bar), was, now, 0)
    ensures var w := BarWithNew(bar, was, now, k, ids);
            && DistinctBar(w) && Stays(AsSlots(w), was, now, k) && bar <= w
            && (k < |now| && IsNew(was, now, k) ==> BarFirst(w, k + CHAT_CHANNEL1) == |w|)
    decreases k
  {
    hide DistinctBar, Stays, IsNew, BarAdded, AsSlots;
    if 0 < k {
      BarNewIndexIsFree(bar, was, now, k - 1, ids);
      var v := BarWithNew(bar, was, now, k - 1, ids);
      if IsNew(was, now, k - 1) {
        BarAddedKeeps(v, was, now, k - 1, ids[k - 1]);
      } else {
        StaysOn(AsSlots(v), was, now, k - 1);
      }
    }
    if k < |now| && IsNew(was, now, k) {
      BarStaysMeansFree(BarWithNew(bar, was, now, k, ids), was, now, k);
    }
  }

  /** The bar, too, stays distinct and alive: what looks for a tab that is already there never finds one. */
  lemma SetBarKeeps(bar: seq<Tab>, was: Channels, now: Channels, ids: seq<int>)
    requires Settable(AsSlots(bar), was, now) && |ids| == |now|
    ensures DistinctBar(SetBar(bar, was, now, ids)) && Live(AsSlots(SetBar(bar, was, now, ids)), now)
    ensures forall k :: 0 <= k < |now| && IsNew(was, now, k) ==>
              var w := BarWithNew(BarSequential(bar, was, now, |was|), was, now, k, ids);
              BarFirst(w, k + CHAT_CHANNEL1) == |w|
  {
    var s, b := AsSlots(bar), BarSequential(bar, was, now, |was|);
    BarSurvivorsStay(bar, was, now);
    hide *;
    BarNewIndexIsFree(b, was, now, |now|, ids);
    StaysAreLive(AsSlots(BarWithNew(b, was, now, |now|, ids)), was, now, |now|);
    SetBarIs(bar, was, now, ids);
    forall k | 0 <= k < |now| && IsNew(was, now, k)
      ensures BarFirst(BarWithNew(b, was, now, k, ids), k + CHAT_CHANNEL1) == |BarWithNew(b, was, now, k, ids)|
    {
      BarNewIndexIsFree(b, was, now, k, ids);
    }
  }

  lemma SetBarIs(bar: seq<Tab>, was: Channels, now: Channels, ids: seq<int>)
    requires |was| == |now| == |ids|
    ensures SetBar(bar, was, now, ids) == BarWithNew(BarSequential(bar, was, now, |was|), was, now, |now|, ids)
  {
  }

  lemma BarSurvivorsStay(bar: seq<Tab>, was: Channels, now: Channels)
    requires Settable(AsSlots(bar), was, now)
    ensures var r := BarSequential(bar, was, now, |was|); DistinctBar(r) && Stays(AsSlots(r), was, now, 0)
  {
    var s := AsSlots(bar);
    var r, b := Sequential(s, was, now, |was|), BarSequential(bar, was, now, |was|);
    SurvivorsStay(s, was, now);
    BarIsCompact(bar, was, now, |was|);
    hide Sequential, BarSequential, DistinctTabs, DistinctBar, StaysAt;
    CompactDistinct(r);
    CompactMembers(r);
    forall i | 0 <= i < |b| ensures StaysAt(AsSlots(b)[i], was, now, 0) {
      assert b[i] in b && Used(b[i]) in r;
    }
  }
}
