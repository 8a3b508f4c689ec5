/** What the tables of channel tabs show after the channels are set, tab by tab. */
module ChatNew {
  import opened Seqs
  import opened ChatSpec

  /** The new channels below k, in order, each with the tab made for it. */
  function NewOnes(was: Channels, now: Channels, k: nat, ids: seq<int>): seq<Meaning>
    requires k <= |now| == |ids|
    decreases k
  {
    if k == 0 then []
    else
      NewOnes(was, now, k - 1, ids) +
      if now[k - 1] != 0 && now[k - 1] !in was then [Channel(now[k - 1], ids[k - 1])] else []
  }

  function UpTo<T>(s: seq<T>, n: nat): seq<T> {
    if |s| <= n then s else s[..n]
  }

  lemma NewMeans(was: Channels, now: Channels, k: nat)
    requires k < |now|
    ensures IsNew(was, now, k) <==> now[k] != 0 && now[k] !in was
  {
    if now[k] in was {
      var i :| 0 <= i < |was| && was[i] == now[k];
    }
  }

  lemma {:induction false} MeaningsAppend(bar: seq<Tab>, x: Tab, chans: Channels)
    ensures Meanings(bar + [x], chans) == Meanings(bar, chans) + [MeaningOf(x, chans)]
  {
    hide MeaningOf;
    if bar == [] {
      assert bar + [x] == [x] && [x][1..] == [];
    } else {
      MeaningsAppend(bar[1..], x, chans);
      assert (bar + [x])[1..] == bar[1..] + [x];
    }
  }

  lemma UpToAppend<T>(a: seq<T>, s: seq<T>, x: T, n: nat)
    requires |a| <= n
    ensures var r := a + UpTo(s, n - |a|);
            |r| <= n && a + UpTo(s + [x], n - |a|) == if |r| < n then r + [x] else r
  {
    if |s| < n - |a| {
      assert a + (s + [x]) == a + s + [x];
    } else {
      assert (s + [x])[..n - |a|] == s[..n - |a|];
    }
  }

  lemma OneMore(w: seq<Tab>, now: Channels, j: nat, id: int, a: seq<Meaning>, s: seq<Meaning>)
    requires j < |now| && |a| <= 12 && BarFirst(w, j + CHAT_CHANNEL1) == |w|
    requires Meanings(w, now) == a + UpTo(s, 12 - |a|)
    ensures Meanings(BarAdded(w, j + CHAT_CHANNEL1, id), now) == a + UpTo(s + [Channel(now[j], id)], 12 - |a|)
  {
    hide Meanings, UpTo, MeaningOf, BarFirst;
    UpToAppend(a, s, Channel(now[j], id), 12);
    MeaningsAppend(w, Tab(j + CHAT_CHANNEL1, id), now);
    NewTabMeans(now, j, id);
  }

  lemma BarNext(bar: seq<Tab>, was: Channels, now: Channels, j: nat, ids: seq<int>)
    requires j < |now| == |ids|
    ensures var v, opens := BarWithNew(bar, was, now, j, ids), now[j] != 0 && now[j] !in was;
            && BarWithNew(bar, was, now, j + 1, ids) == (if opens then BarAdded(v, j + CHAT_CHANNEL1, ids[j]) else v)
            && NewOnes(was, now, j + 1, ids) ==
               NewOnes(was, now, j, ids) + if opens then [Channel(now[j], ids[j])] else []
  {
    NewMeans(was, now, j);
    hide IsNew, BarAdded;
  }

  /** A new channel's tab goes to the end of the bar, if there is room. */
  lemma {:induction false} BarGrows(bar: seq<Tab>, was: Channels, now: Channels, k: nat, ids: seq<int>)
    requires |was| == |now| == |ids| && k <= |now| && |bar| <= 12
    requires DistinctBar(bar) && Stays(AsSlots(bar), was, now, 0)
    ensures Meanings(BarWithNew(bar, was, now, k, ids), now) ==
            Meanings(bar, now) + UpTo(NewOnes(was, now, k, ids), 12 - |bar|)
    decreases k
  {
    hide Meanings, DistinctBar, Stays, AsSlots, UpTo, MeaningOf;
    if k == 0 {
      UpToNone<Meaning>(12 - |bar|);
    } else {
      var j := k - 1;
      BarGrows(bar, was, now, j, ids);
      BarNewIndexIsFree(bar, was, now, j, ids);
      NewMeans(was, now, j);
      BarNext(bar, was, now, j, ids);
      hide IsNew, BarAdded, BarFirst, BarWithNew, NewOnes;
      if now[j] != 0 && now[j] !in was {
        OneMore(BarWithNew(bar, was, now, j, ids), now, j, ids[j], Meanings(bar, now), NewOnes(was, now, j, ids));
      } else {
        assert NewOnes(was, now, k, ids) == NewOnes(was, now, j, ids);
      }
    }
  }

  lemma UpToNone<T>(n: nat)
    ensures UpTo<T>([], n) == []
  {
  }

  lemma NewTabMeans(now: Channels, j: nat, id: int)
    requires j < |now|
    ensures MeaningOf(Tab(j + CHAT_CHANNEL1, id), now) == Channel(now[j], id)
  {
  }

  /**
   * The bar after the channels are set: the tabs that were there, less those of channels left, each for what it stood
   * for, and then one for each new channel in order, as far as there is room for 12.
   */
  lemma SetBarIsExact(bar: seq<Tab>, was: Channels, now: Channels, ids: seq<int>)
    requires Settable(AsSlots(bar), was, now) && |ids| == |now| && |bar| <= 12
    ensures var kept := Filter(Meanings(bar, was), (m: Meaning) => m.Channel? ==> m.number in now);
            && |kept| <= 12
            && Meanings(SetBar(bar, was, now, ids), now) == kept + UpTo(NewOnes(was, now, |now|, ids), 12 - |kept|)
  {
    var b := BarSequential(bar, was, now, |was|);
    BarSurvivorsStay(bar, was, now);
    BarKeepsItsChannels(bar, was, now);
    var before := Meanings(bar, was);
    FilterShrinks(before, m => Remains(m, now));
    forall m: Meaning ensures Remains(m, now) <==> (m.Channel? ==> m.number in now) {
      RemainsIff(m, now);
    }
    FilterSame(before, m => Remains(m, now), (m: Meaning) => m.Channel? ==> m.number in now);
    hide Settable, Meanings, Remains, Filter, BarSequential, DistinctBar, Stays, AsSlots;
    SetBarIs(bar, was, now, ids);
    BarGrows(b, was, now, |now|, ids);
  }

  lemma RemainsIff(m: Meaning, now: Channels)
    ensures Remains(m, now) <==> (m.Channel? ==> m.number in now)
  {
    if m.Channel? && m.number in now {
      var i :| 0 <= i < |now| && now[i] == m.number;
    }
  }

  // ---------- the window ----------

  /** All tabs at the index of a channel are the one made for it. */
  ghost predicate OnlyTab(s: seq<Slot>, k: nat, id: int) {
    forall i :: 0 <= i < |s| && s[i].Used? && s[i].tab.channel == k + CHAT_CHANNEL1 ==> s[i].tab.id == id
  }

  lemma FreeIndexHasOnly(s: seq<Slot>, k: nat, id: int)
    requires FirstAt(s, k + CHAT_CHANNEL1) == |s|
    ensures OnlyTab(s, k, id)
  {
  }

  lemma OpenedKeepsOnly(s: seq<Slot>, k: nat, id: int, j: nat, id': int)
    requires OnlyTab(s, k, id) && (j == k ==> id' == id)
    ensures OnlyTab(Opened(s, j + CHAT_CHANNEL1, id'), k, id)
  {
  }

  lemma {:induction false} WindowHasOnly(s: seq<Slot>, was: Channels, now: Channels, k: nat, ids: seq<int>, j: nat)
    requires |was| == |now| == |ids| && j < k <= |now| && IsNew(was, now, j)
    requires DistinctTabs(s) && Stays(s, was, now, 0)
    ensures OnlyTab(WithNew(s, was, now, k, ids), j, ids[j])
    decreases k
  {
    hide DistinctTabs, Stays, IsNew, Opened, OnlyTab;
    var v := WithNew(s, was, now, k - 1, ids);
    if j == k - 1 {
      NewIndexIsFree(s, was, now, j, ids);
      FreeIndexHasOnly(v, j, ids[j]);
    } else {
      WindowHasOnly(s, was, now, k - 1, ids, j);
    }
    OpenedKeepsOnly(v, j, ids[j], k - 1, ids[k - 1]);
  }

  /** In the window each new channel has the tab made for it, or none at all, and then no slot is free. */
  lemma NewChannelsHaveTheirTab(s: seq<Slot>, was: Channels, now: Channels, ids: seq<int>, k: nat)
    requires Settable(s, was, now) && |ids| == |now| && k < |now| && now[k] != 0 && now[k] !in was
    ensures var r := SetTabs(s, was, now, ids);
            var i := FirstAt(r, k + CHAT_CHANNEL1);
            if i < |r| then r[i].tab.id == ids[k] else forall j :: 0 <= j < |r| ==> r[j].Used?
  {
    var r := Sequential(s, was, now, |was|);
    NewMeans(was, now, k);
    SurvivorsStay(s, was, now);
    hide Settable, Sequential, DistinctTabs, Stays, IsNew;
    WindowHasOnly(r, was, now, |now|, ids, k);
    if FirstFree(SetTabs(s, was, now, ids)) < |s| {
      NewTabsAreThere(r, was, now, |now|, ids, k);
    }
  }
}
