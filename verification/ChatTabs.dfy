/** chat.c: the active channels, the buttons of the tab bar and the tabs of the chat window, changed in place. */
module ChatTabs {
  import opened ChatSpec

  class Chat {
    const activeChannels: array<nat>
    // the tab bar, of which the first tabsInUse entries are in use
    const tabs: array<Tab>
    var tabsInUse: nat
    // the chat window: channel index and tab of each slot
    const chanNr: array<nat>
    const chanTab: array<int>
    const chanOpen: array<bool>
    var currentChannel: nat

    ghost predicate Shape() {
      && activeChannels.Length == MAX_ACTIVE_CHANNELS
      && tabs.Length == chanNr.Length == chanTab.Length == chanOpen.Length == MAX_CHAT_TABS
      && activeChannels != chanNr
    }

    ghost predicate Valid()
      reads this`tabsInUse
    {
      Shape() && tabsInUse <= MAX_CHAT_TABS
    }

    /** The channels that can have tabs: the first NMAX active ones. */
    ghost function Chans(): (r: Channels)
      requires Shape()
      reads activeChannels
      ensures |r| == NMAX
    {
      activeChannels[..NMAX]
    }

    ghost function Bar(): (r: seq<Tab>)
      requires Valid()
      reads this`tabsInUse, tabs
    {
      tabs[..tabsInUse]
    }

    ghost function WindowSlot(i: nat): Slot
      requires Shape() && i < MAX_CHAT_TABS
      reads chanNr, chanTab, chanOpen
    {
      if chanOpen[i] then Used(Tab(chanNr[i], chanTab[i])) else Free
    }

    ghost function Window(): (r: seq<Slot>)
      requires Shape()
      reads chanNr, chanTab, chanOpen
      ensures |r| == MAX_CHAT_TABS && forall i :: 0 <= i < MAX_CHAT_TABS ==> r[i] == WindowSlot(i)
    {
      seq(MAX_CHAT_TABS, i requires Shape() && 0 <= i < MAX_CHAT_TABS reads chanNr, chanTab, chanOpen => WindowSlot(i))
    }

    method UpdateTabButtonIdx(oldIdx: nat, newIdx: nat)
      requires Valid()
      modifies tabs
      ensures Valid() && Bar() == BarRenumbered(old(Bar()), oldIdx, newIdx)
    {
      if oldIdx == newIdx {
        return;
      }
      ghost var bar := Bar();
      var i := 0;
      while i < tabsInUse
        invariant 0 <= i <= tabsInUse && Bar() == bar
        invariant forall j :: 0 <= j < i ==> bar[j].channel != oldIdx
      {
        if tabs[i].channel == oldIdx {
          BarFirstIs(bar, oldIdx, i);
          tabs[i] := tabs[i].(channel := newIdx);
          assert Bar() == bar[i := bar[i].(channel := newIdx)];
          return;
        }
        i := i + 1;
      }
      BarFirstIs(bar, oldIdx, i);
    }

    method RemoveTabButton(channel: nat)
      requires Valid()
      modifies this`tabsInUse, tabs
      ensures Valid() && Bar() == BarRemoved(old(Bar()), channel)
    {
      ghost var bar := Bar();
      var i := 0;
      while i < tabsInUse && tabs[i].channel != channel
        invariant 0 <= i <= tabsInUse
        invariant forall j :: 0 <= j < i ==> bar[j].channel != channel
      {
        i := i + 1;
      }
      BarFirstIs(bar, channel, i);
      if i >= tabsInUse {
        return;
      }
      CloseGap(i);
    }

    /** Moves the tabs after f down by one. */
    method CloseGap(f: nat)
      requires Valid() && f < tabsInUse
      modifies this`tabsInUse, tabs
      ensures Valid() && Bar() == old(Bar()[..f] + Bar()[f + 1..])
    {
      ghost var r := Bar()[..f] + Bar()[f + 1..];
      var i := f + 1;
      while i < tabsInUse
        invariant f + 1 <= i <= tabsInUse == old(tabsInUse)
        invariant forall j :: 0 <= j < i - 1 ==> tabs[j] == r[j]
        invariant forall j :: i <= j < tabsInUse ==> tabs[j] == old(tabs[j])
      {
        assert r[i - 1] == tabs[i];
        tabs[i - 1] := tabs[i];
        i := i + 1;
      }
      tabsInUse := tabsInUse - 1;
      assert tabs[..tabsInUse] == r;
    }

    method AddTabButton(channel: nat, button: int) returns (r: int)
      requires Valid()
      modifies this`tabsInUse, tabs
      ensures Valid() && Bar() == BarAdded(old(Bar()), channel, button)
      ensures r == if BarFirst(old(Bar()), channel) < |old(Bar())| then BarFirst(old(Bar()), channel)
                   else if |old(Bar())| < MAX_CHAT_TABS then |old(Bar())| else -1
    {
      ghost var bar := Bar();
      var i := 0;
      while i < tabsInUse
        invariant 0 <= i <= tabsInUse && Bar() == bar
        invariant forall j :: 0 <= j < i ==> bar[j].channel != channel
      {
        if tabs[i].channel == channel {
          BarFirstIs(bar, channel, i);
          return i;
        }
        i := i + 1;
      }
      BarFirstIs(bar, channel, i);
      if tabsInUse >= MAX_CHAT_TABS {
        return -1;
      }
      tabs[tabsInUse] := Tab(channel, button);
      tabsInUse := tabsInUse + 1;
      return tabsInUse - 1;
    }

    method UpdateChatTabIdx(oldIdx: nat, newIdx: nat)
      requires Valid()
      modifies chanNr
      ensures Valid() && Window() == Renumbered(old(Window()), oldIdx, newIdx)
    {
      if oldIdx == newIdx {
        return;
      }
      ghost var w := Window();
      var i := 0;
      while i < MAX_CHAT_TABS
        invariant 0 <= i <= MAX_CHAT_TABS && Window() == w
        invariant forall j :: 0 <= j < i ==> w[j].Free? || w[j].tab.channel != oldIdx
      {
        if chanNr[i] == oldIdx && chanOpen[i] {
          FirstIs(w, oldIdx, i);
          chanNr[i] := newIdx;
          assert Window() == w[i := Used(w[i].tab.(channel := newIdx))];
          return;
        }
        i := i + 1;
      }
      FirstIs(w, oldIdx, i);
    }

    method RemoveChatTab(channel: nat)
      requires Valid()
      modifies chanNr, chanTab, chanOpen
      ensures Valid() && Window() == Closed(old(Window()), channel)
    {
      ghost var w := Window();
      var i := 0;
      while i < MAX_CHAT_TABS
        invariant 0 <= i <= MAX_CHAT_TABS && Window() == w
        invariant forall j :: 0 <= j < i ==> w[j].Free? || w[j].tab.channel != channel
      {
        if chanNr[i] == channel && chanOpen[i] {
          FirstIs(w, channel, i);
          chanTab[i], chanNr[i], chanOpen[i] := -1, 255, false;
          assert Window() == w[i := Free];
          return;
        }
        i := i + 1;
      }
      FirstIs(w, channel, i);
    }

    method AddChatTab(channel: nat, tab: int) returns (r: int)
      requires Valid()
      modifies chanNr, chanTab, chanOpen
      ensures Valid() && Window() == Opened(old(Window()), channel, tab)
      ensures r == if FirstFree(old(Window())) < MAX_CHAT_TABS then FirstFree(old(Window())) else -1
    {
      ghost var w := Window();
      var i := 0;
      while i < MAX_CHAT_TABS
        invariant 0 <= i <= MAX_CHAT_TABS && Window() == w
        invariant forall j :: 0 <= j < i ==> w[j].Used?
      {
        if !chanOpen[i] {
          FreeIs(w, i);
          chanTab[i], chanNr[i], chanOpen[i] := tab, channel, true;
          assert Window() == w[i := Used(Tab(channel, tab))];
          return i;
        }
        i := i + 1;
      }
      FreeIs(w, i);
      return -1;
    }

    method UpdateTabIdx(oldIdx: nat, newIdx: nat)
      requires Valid()
      modifies tabs, chanNr
      ensures Valid() && Bar() == BarRenumbered(old(Bar()), oldIdx, newIdx)
      ensures Window() == Renumbered(old(Window()), oldIdx, newIdx)
    {
      UpdateTabButtonIdx(oldIdx, newIdx);
      UpdateChatTabIdx(oldIdx, newIdx);
    }

    method RemoveTab(channel: nat)
      requires Valid()
      modifies this`tabsInUse, tabs, chanNr, chanTab, chanOpen
      ensures Valid() && Bar() == BarRemoved(old(Bar()), channel) && Window() == Closed(old(Window()), channel)
    {
      RemoveTabButton(channel);
      RemoveChatTab(channel);
    }

    method AddTab(channel: nat, button: int, tab: int)
      requires Valid()
      modifies this`tabsInUse, tabs, chanNr, chanTab, chanOpen
      ensures Valid() && Bar() == BarAdded(old(Bar()), channel, button)
      ensures Window() == Opened(old(Window()), channel, tab)
    {
      var _ := AddTabButton(channel, button);
      var _ := AddChatTab(channel, tab);
    }

    /** The first k channels of a list searched for one; k if it is not there. */
    method FindChannel(chans: seq<nat>, chan: nat) returns (k: nat)
      ensures k == Pos(chans, chan)
    {
      k := 0;
      while k < |chans|
        invariant k <= |chans| && forall j :: 0 <= j < k ==> chans[j] != chan
      {
        if chans[k] == chan {
          break;
        }
        k := k + 1;
      }
      PosIs(chans, chan, k);
    }

    /** What becomes of the tabs of the k-th channel that was active. */
    method MoveTab(was: seq<nat>, now: seq<nat>, k: nat)
      requires Valid() && k < |was| == |now| == NMAX
      modifies this`tabsInUse, tabs, chanNr, chanTab, chanOpen
      ensures Valid() && Bar() == BarMoved(old(Bar()), was, now, k) && Window() == Moved(old(Window()), was, now, k)
    {
      hide BarRenumbered, BarRemoved, Renumbered, Closed, Pos, Bar, Window;
      if was[k] != 0 {
        var j := FindChannel(now, was[k]);
        if j >= NMAX {
          RemoveTab(k + CHAT_CHANNEL1);
        } else {
          UpdateTabIdx(k + CHAT_CHANNEL1, j + CHAT_CHANNEL1);
        }
      }
    }

    /** Tabs of the channels that were active are moved or removed, one after the other; new channels get tabs. */
    method SetChannelTabs(was: seq<nat>, buttons: seq<int>, newTabs: seq<int>)
      requires Valid() && |was| == |buttons| == |newTabs| == NMAX
      modifies this`tabsInUse, tabs, chanNr, chanTab, chanOpen
      ensures Valid() && Chans() == old(Chans())
      ensures Bar() == SetBar(old(Bar()), was, Chans(), buttons)
      ensures Window() == SetTabs(old(Window()), was, Chans(), newTabs)
    {
      ghost var bar, window := Bar(), Window();
      var now := activeChannels[..NMAX];
      hide BarMoved, Moved, IsNew, BarAdded, Opened, Pos, Bar, Window;
      for k := 0 to NMAX
        invariant Valid() && Chans() == now
        invariant Bar() == BarSequential(bar, was, now, k) && Window() == Sequential(window, was, now, k)
      {
        MoveTab(was, now, k);
      }
      ghost var bar1, window1 := Bar(), Window();
      for k := 0 to NMAX
        invariant Valid() && Chans() == now
        invariant Bar() == BarWithNew(bar1, was, now, k, buttons) && Window() == WithNew(window1, was, now, k, newTabs)
      {
        AddIfNew(was, now, k, buttons[k], newTabs[k]);
      }
    }

    method AddIfNew(was: seq<nat>, now: seq<nat>, k: nat, button: int, tab: int)
      requires Valid() && k < |was| == |now| == NMAX
      modifies this`tabsInUse, tabs, chanNr, chanTab, chanOpen
      ensures Valid()
      ensures Bar() == if IsNew(was, now, k) then BarAdded(old(Bar()), k + CHAT_CHANNEL1, button) else old(Bar())
      ensures Window() == if IsNew(was, now, k) then Opened(old(Window()), k + CHAT_CHANNEL1, tab) else old(Window())
    {
      hide BarAdded, Opened, Pos, Bar, Window;
      if now[k] != 0 {
        var j := FindChannel(was, now[k]);
        if j >= NMAX {
          AddTab(k + CHAT_CHANNEL1, button, tab);
        }
      }
    }

    /** The server's list of active channels replaces the old one. */
    method SetActiveChannels(active: nat, channels: seq<nat>, buttons: seq<int>, newTabs: seq<int>)
      requires Valid() && |channels| <= MAX_ACTIVE_CHANNELS && |buttons| == |newTabs| == NMAX
      modifies this`tabsInUse, this`currentChannel, activeChannels, tabs, chanNr, chanTab, chanOpen
      ensures Valid() && currentChannel == active
      ensures activeChannels[..] == channels + seq(MAX_ACTIVE_CHANNELS - |channels|, _ => 0)
      ensures Bar() == SetBar(old(Bar()), old(Chans()), Chans(), buttons)
      ensures Window() == SetTabs(old(Window()), old(Chans()), Chans(), newTabs)
    {
      var tmp := activeChannels[..];
      var i := 0;
      while i < MAX_ACTIVE_CHANNELS
        invariant 0 <= i <= MAX_ACTIVE_CHANNELS && Valid() && Bar() == old(Bar()) && Window() == old(Window())
        invariant forall j :: 0 <= j < i ==> activeChannels[j] == if j < |channels| then channels[j] else 0
      {
        activeChannels[i] := if i < |channels| then channels[i] else 0;
        i := i + 1;
      }
      assert activeChannels[..] == channels + seq(MAX_ACTIVE_CHANNELS - |channels|, _ => 0);
      assert tmp[..NMAX] == old(Chans());
      SetChannelTabs(tmp[..NMAX], buttons, newTabs);
      currentChannel := active;
    }
  }

  lemma PosIs(chans: Channels, chan: nat, i: nat)
    requires i <= |chans| && (i < |chans| ==> chans[i] == chan) && forall j :: 0 <= j < i ==> chans[j] != chan
    ensures Pos(chans, chan) == i
  {
  }

  lemma BarFirstIs(bar: seq<Tab>, c: nat, i: nat)
    requires i <= |bar| && (i < |bar| ==> bar[i].channel == c) && forall j :: 0 <= j < i ==> bar[j].channel != c
    ensures BarFirst(bar, c) == i
  {
  }

  lemma FirstIs(s: seq<Slot>, c: nat, i: nat)
    requires i <= |s| && (i < |s| ==> s[i].Used? && s[i].tab.channel == c)
    requires forall j :: 0 <= j < i ==> s[j].Free? || s[j].tab.channel != c
    ensures FirstAt(s, c) == i
  {
  }

  lemma FreeIs(s: seq<Slot>, i: nat)
    requires i <= |s| && (i < |s| ==> s[i].Free?) && forall j :: 0 <= j < i ==> s[j].Used?
    ensures FirstFree(s) == i
  {
  }
}
