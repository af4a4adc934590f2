/**
 The tab strip and download store of src/platform_browser.rs, and the event stream it
 leaves behind. A page session and the network are seen through what they return.
 */
module Browser {
  import opened Common

  datatype TabInfo = TabInfo(id: nat, url: string, title: string, active: bool)

  datatype DownloadState = InProgress(loaded: nat, total: Option<nat>) | Completed | Failed(message: string) | Cancelled

  datatype DownloadInfo =
    DownloadInfo(id: nat, url: string, filename: string, mimeType: Option<string>, bytes: seq<nat>, state: DownloadState)

  datatype BrowserEvent =
    | TabOpened(tab: TabInfo)
    | TabActivated(tabId: nat)
    | TabNavigated(tab: TabInfo)
    | TabClosed(tabId: nat)
    | DownloadStarted(download: DownloadInfo)
    | DownloadProgress(downloadId: nat, loaded: nat, total: Option<nat>)
    | DownloadFinished(download: DownloadInfo)
    | DownloadFailed(downloadId: nat, error: string)
    | DownloadCancelled(downloadId: nat)

  datatype BrowserError =
    | InvalidTab(id: nat)
    | NoActiveTab
    | InvalidDownload(id: nat)
    | DownloadAlreadyFinished(id: nat)
    | IdExhausted
    | Navigation
    | Network
    | FailedDownload(id: nat, message: string)

  /** Where a session stands after a navigation: its address and title. */
  datatype Page = Page(url: string, title: string)

  /** What the HTTP client returned; `named` is the file name of a content disposition. */
  datatype Response = Response(mimeType: Option<string>, named: Option<string>, length: Option<nat>, body: seq<nat>)

  /** A download as it starts, and once the response has named it. */
  function Requested(id: nat, url: string, filename: string): DownloadInfo {
    DownloadInfo(id, url, filename, None, [], InProgress(0, None))
  }

  function Received(first: DownloadInfo, suggested: bool, response: Response): DownloadInfo {
    var named := if suggested || response.named.None? then first.filename else response.named.value;
    first.(mimeType := response.mimeType, filename := named)
  }

  // ----- replaying events -----

  /** What a frontend can rebuild from the events alone. */
  datatype View = View(tabs: map<nat, TabInfo>, active: Option<nat>, downloads: map<nat, DownloadInfo>)

  const NOTHING := View(map[], None, map[])

  function Dimmed(tabs: map<nat, TabInfo>, active: Option<nat>): map<nat, TabInfo> {
    if active.Some? && active.value in tabs then tabs[active.value := tabs[active.value].(active := false)] else tabs
  }

  function Replay1(v: View, e: BrowserEvent): View {
    match e
    case TabOpened(tab) => v.(tabs := Dimmed(v.tabs, v.active)[tab.id := tab], active := Some(tab.id))
    case TabActivated(id) =>
      var tabs := Dimmed(v.tabs, v.active);
      if id in tabs then v.(tabs := tabs[id := tabs[id].(active := true)], active := Some(id)) else v
    case TabNavigated(tab) => v.(tabs := v.tabs[tab.id := tab])
    case TabClosed(id) => v.(tabs := v.tabs - {id}, active := if v.active == Some(id) then None else v.active)
    case DownloadStarted(d) => v.(downloads := v.downloads[d.id := d])
    case DownloadProgress(id, loaded, total) => WithState(v, id, InProgress(loaded, total))
    case DownloadFinished(d) => v.(downloads := v.downloads[d.id := d])
    case DownloadFailed(id, error) => WithState(v, id, Failed(error))
    case DownloadCancelled(id) =>
      if id in v.downloads then v.(downloads := v.downloads[id := v.downloads[id].(state := Cancelled, bytes := [])]) else v
  }

  function WithState(v: View, id: nat, state: DownloadState): View {
    if id in v.downloads then v.(downloads := v.downloads[id := v.downloads[id].(state := state)]) else v
  }

  function Replay(events: seq<BrowserEvent>): View {
    if events == [] then NOTHING else Replay1(Replay(events[..|events| - 1]), events[|events| - 1])
  }

  lemma ReplayOne(log: seq<BrowserEvent>, e: BrowserEvent)
    ensures Replay(log + [e]) == Replay1(Replay(log), e)
  {
    assert (log + [e])[..|log|] == log;
  }

  // ----- tab order -----

  /** The tab that takes over when `closed` goes: the next to the right, else the rightmost. */
  ghost predicate TakesOver(ids: set<nat>, closed: nat, next: nat) {
    && next in ids
    && (if exists t :: t in ids && t > closed
        then next > closed && forall t :: t in ids && t > closed ==> next <= t
        else forall t :: t in ids ==> t <= next)
  }

  lemma {:induction false} LeastExists(ids: set<nat>) returns (least: nat)
    requires ids != {}
    ensures least in ids && forall t :: t in ids ==> least <= t
  {
    least :| least in ids;
    if ids != {least} {
      var rest := ids - {least};
      assert ids == rest + {least};
      assert rest != {};
      var other := LeastExists(rest);
      least := if least < other then least else other;
    }
  }

  lemma {:induction false} GreatestExists(ids: set<nat>) returns (greatest: nat)
    requires ids != {}
    ensures greatest in ids && forall t :: t in ids ==> t <= greatest
  {
    greatest :| greatest in ids;
    if ids != {greatest} {
      var rest := ids - {greatest};
      assert ids == rest + {greatest};
      assert rest != {};
      var other := GreatestExists(rest);
      greatest := if greatest > other then greatest else other;
    }
  }

  method NextTab(ids: set<nat>, closed: nat) returns (next: nat)
    requires ids != {}
    ensures TakesOver(ids, closed, next)
  {
    var right := set t | t in ids && t > closed;
    if right != {} {
      ghost var least := LeastExists(right);
      next :| next in right && forall t :: t in right ==> next <= t;
      assert forall t :: t in ids && t > closed ==> t in right;
    } else {
      ghost var greatest := GreatestExists(ids);
      next :| next in ids && forall t :: t in ids ==> t <= next;
      assert forall t :: t in ids ==> t !in right;
    }
  }

  // ----- the browser -----

  predicate Terminal(d: DownloadInfo) { !d.state.InProgress? }

  /** Exactly one tab is active if there is any, and it is the one the browser names. */
  ghost predicate OneActive(v: View) {
    && (v.active.Some? ==> v.active.value in v.tabs)
    && (v.active.None? ==> v.tabs.Keys == {})
    && (forall t :: t in v.tabs ==> (v.tabs[t].active <==> v.active == Some(t)))
  }

  /** The identities in the log are below the counters, and each is greater than all before it. */
  ghost predicate IdsIncrease(log: seq<BrowserEvent>, tab: nat, download: nat) {
    log == [] ||
    var before := log[..|log| - 1];
    match log[|log| - 1]
    case TabOpened(info) => info.id < tab && IdsIncrease(before, info.id, download)
    case DownloadStarted(info) => info.id < download && IdsIncrease(before, tab, info.id)
    case _ => IdsIncrease(before, tab, download)
  }

  ghost predicate Keyed(v: View, tab: nat, download: nat) {
    && (forall t :: t in v.tabs ==> v.tabs[t].id == t && t < tab)
    && (forall d :: d in v.downloads ==> v.downloads[d].id == d && d < download)
  }

  /** Every identity ever used, live or only in the log, is below the two counters and was used for one thing. */
  ghost predicate IdsAreFresh(v: View, log: seq<BrowserEvent>, tab: nat, download: nat) {
    && Keyed(v, tab, download)
    && IdsIncrease(log, tab, download)
  }

  /** The log tells everything, and no identity it used will be used again. */
  ghost predicate Logged(v: View, log: seq<BrowserEvent>, tab: nat, download: nat) {
    v == Replay(log) && IdsAreFresh(v, log, tab, download)
  }

  /** An event fits between the old and the new counters: what it opens or starts is new, what it renews is not. */
  predicate EventFits(e: BrowserEvent, tab: nat, download: nat, tab': nat, download': nat) {
    && tab <= tab' && download <= download'
    && match e
      case TabOpened(info) => tab <= info.id < tab'
      case TabNavigated(info) => info.id < tab'
      case DownloadStarted(info) => download <= info.id < download'
      case DownloadFinished(info) => info.id < download'
      case _ => true
  }

  lemma KeyedNext(v: View, e: BrowserEvent, tab: nat, download: nat, tab': nat, download': nat)
    requires Keyed(v, tab, download) && EventFits(e, tab, download, tab', download')
    ensures Keyed(Replay1(v, e), tab', download')
  {
    var w := Replay1(v, e);
    forall t | t in w.tabs
      ensures w.tabs[t].id == t && t < tab'
    {
    }
    forall d | d in w.downloads
      ensures w.downloads[d].id == d && d < download'
    {
    }
  }

  lemma {:induction false} IdsStayBelow(log: seq<BrowserEvent>, tab: nat, download: nat, tab': nat, download': nat)
    requires IdsIncrease(log, tab, download) && tab <= tab' && download <= download'
    ensures IdsIncrease(log, tab', download')
  {
    if log != [] {
      var before, last := log[..|log| - 1], log[|log| - 1];
      match last
      case TabOpened(info) => IdsStayBelow(before, info.id, download, info.id, download');
      case DownloadStarted(info) => IdsStayBelow(before, tab, info.id, tab', info.id);
      case _ => IdsStayBelow(before, tab, download, tab', download');
    }
  }

  /** No identity is opened or started twice, not even after its tab was closed. */
  lemma {:induction false} NeverReused(log: seq<BrowserEvent>, tab: nat, download: nat, i: nat, j: nat)
    requires IdsIncrease(log, tab, download) && i < j < |log|
    ensures log[i].TabOpened? && log[j].TabOpened? ==> log[i].tab.id < log[j].tab.id < tab
    ensures log[i].DownloadStarted? && log[j].DownloadStarted? ==> log[i].download.id < log[j].download.id < download
  {
    var n := |log| - 1;
    var before, last := log[..n], log[n];
    var tab' := if last.TabOpened? then last.tab.id else tab;
    var download' := if last.DownloadStarted? then last.download.id else download;
    if j < n {
      NeverReused(before, tab', download', i, j);
    } else {
      UsedIsBelow(before, tab', download', i);
    }
  }

  lemma {:induction false} UsedIsBelow(log: seq<BrowserEvent>, tab: nat, download: nat, i: nat)
    requires IdsIncrease(log, tab, download) && i < |log|
    ensures log[i].TabOpened? ==> log[i].tab.id < tab
    ensures log[i].DownloadStarted? ==> log[i].download.id < download
  {
    var n := |log| - 1;
    if i < n {
      var last := log[n];
      UsedIsBelow(log[..n], if last.TabOpened? then last.tab.id else tab, if last.DownloadStarted? then last.download.id else download, i);
    }
  }

  /** Logging the event that tells how the state moved on keeps the log complete and its identities fresh. */
  lemma LogOne(v: View, log: seq<BrowserEvent>, tab: nat, download: nat, e: BrowserEvent, tab': nat, download': nat)
    requires Logged(v, log, tab, download) && EventFits(e, tab, download, tab', download')
    ensures Logged(Replay1(v, e), log + [e], tab', download')
  {
    ReplayOne(log, e);
    KeyedNext(v, e, tab, download, tab', download');
    assert (log + [e])[..|log|] == log && (log + [e])[|log|] == e;
    match e
    case TabOpened(info) => IdsStayBelow(log, tab, download, info.id, download');
    case DownloadStarted(info) => IdsStayBelow(log, tab, download, tab', info.id);
    case _ => IdsStayBelow(log, tab, download, tab', download');
  }

  /** Progress and then completion, logged, tell the whole record of a download. */
  lemma FinishLogged(v: View, log: seq<BrowserEvent>, tab: nat, download: nat, info: DownloadInfo, response: Response)
    requires Logged(v, log, tab, download) && info.id in v.downloads && info.id < download
    ensures var progress := DownloadProgress(info.id, |response.body|, response.length);
      var done := info.(bytes := response.body, state := Completed);
      Logged(v.(downloads := v.downloads[info.id := done]), log + [progress, DownloadFinished(done)], tab, download)
  {
    var progress := DownloadProgress(info.id, |response.body|, response.length);
    var done := info.(bytes := response.body, state := Completed);
    var w := Replay1(v, progress);
    LogOne(v, log, tab, download, progress, tab, download);
    LogOne(w, log + [progress], tab, download, DownloadFinished(done), tab, download);
    assert log + [progress, DownloadFinished(done)] == log + [progress] + [DownloadFinished(done)];
    assert w.downloads[info.id := done] == v.downloads[info.id := done];
  }

  lemma OpenKeepsOneActive(v: View, tab: TabInfo)
    requires OneActive(v) && tab.id !in v.tabs && tab.active
    ensures OneActive(Replay1(v, TabOpened(tab))) && Replay1(v, TabOpened(tab)).tabs.Keys == v.tabs.Keys + {tab.id}
  {
    var w := Replay1(v, TabOpened(tab));
    forall t | t in w.tabs
      ensures w.tabs[t].active <==> w.active == Some(t)
    {
    }
  }

  lemma ActivateKeepsOneActive(v: View, id: nat)
    requires OneActive(v) && id in v.tabs
    ensures OneActive(Replay1(v, TabActivated(id))) && Replay1(v, TabActivated(id)).tabs.Keys == v.tabs.Keys
  {
    var w := Replay1(v, TabActivated(id));
    forall t | t in w.tabs
      ensures w.tabs[t].active <==> w.active == Some(t)
    {
    }
  }

  /** Closing a tab that is not active, or the last one, needs no successor. */
  lemma CloseKeepsOneActive(v: View, id: nat)
    requires OneActive(v) && id in v.tabs
    ensures var w := Replay1(v, TabClosed(id));
      w.tabs.Keys == v.tabs.Keys - {id} && (v.active != Some(id) || w.tabs.Keys == {} ==> OneActive(w))
  {
  }

  /** Closing the active tab and activating any other leaves exactly that one active. */
  lemma CloseThenActivate(v: View, id: nat, next: nat)
    requires OneActive(v) && v.active == Some(id) && next in v.tabs && next != id
    ensures OneActive(Replay1(Replay1(v, TabClosed(id)), TabActivated(next)))
  {
    var w := Replay1(v, TabClosed(id));
    assert w.active == None && Dimmed(w.tabs, w.active) == w.tabs;
  }

  class PlatformBrowser {
    var tabs: map<nat, TabInfo>
    var activeTab: Option<nat>
    var nextTabId: nat
    var downloads: map<nat, DownloadInfo>
    var nextDownloadId: nat
    var events: seq<BrowserEvent>
    /** Every event handed out so far. */
    ghost var drained: seq<BrowserEvent>

    ghost function Log(): seq<BrowserEvent>
      reads this
    {
      drained + events
    }

    ghost function Now(): View
      reads this
    {
      View(tabs, activeTab, downloads)
    }

    ghost predicate Consistent()
      reads this
    {
      Logged(Now(), Log(), nextTabId, nextDownloadId) && OneActive(Now())
    }

    /** Between calls no download is in progress. */
    ghost predicate Settled()
      reads this
    {
      forall d :: d in downloads ==> Terminal(downloads[d])
    }

    ghost predicate Valid()
      reads this
    {
      Consistent() && Settled()
    }

    constructor ()
      ensures Valid() && Now() == NOTHING && Log() == []
    {
      tabs, activeTab, nextTabId := map[], None, 1;
      downloads, nextDownloadId, events := map[], 1, [];
      drained := [];
    }

    /** Queues the event that tells how the state moved on from `before`. */
    method Push(e: BrowserEvent, ghost before: View, ghost tab: nat, ghost download: nat)
      requires Logged(before, Log(), tab, download) && Now() == Replay1(before, e)
      requires EventFits(e, tab, download, nextTabId, nextDownloadId)
      modifies this`events
      ensures Logged(Now(), Log(), nextTabId, nextDownloadId) && Log() == old(Log()) + [e]
    {
      LogOne(before, Log(), tab, download, e, nextTabId, nextDownloadId);
      events := events + [e];
      assert Log() == old(Log()) + [e];
    }

    /** `outcome` is what creating the session and navigating it came to. */
    method OpenTab(outcome: Result<Page, BrowserError>) returns (r: Result<nat, BrowserError>)
      requires Valid()
      modifies this`tabs, this`activeTab, this`nextTabId, this`events
      ensures Valid()
      ensures r.Ok? <==> old(nextTabId) < U64_MAX && outcome.Ok?
      ensures r.Err? ==> Now() == old(Now()) && Log() == old(Log())
      ensures r.Ok? ==> r.value == old(nextTabId) && r.value !in old(tabs) && activeTab == Some(r.value)
      ensures r.Ok? ==> Log() == old(Log()) + [TabOpened(TabInfo(r.value, outcome.value.url, outcome.value.title, true))]
      ensures r.Ok? ==> tabs.Keys == old(tabs).Keys + {r.value}
    {
      var id := nextTabId;
      if id >= U64_MAX {
        return Err(IdExhausted);
      }
      nextTabId := id + 1;
      if outcome.Err? {
        IdsStayBelow(Log(), id, nextDownloadId, id + 1, nextDownloadId);
        return Err(outcome.error);
      }
      var info := TabInfo(id, outcome.value.url, outcome.value.title, true);
      ghost var before := Now();
      tabs := Dimmed(tabs, activeTab)[id := info];
      activeTab := Some(id);
      Push(TabOpened(info), before, id, nextDownloadId);
      OpenKeepsOneActive(before, info);
      return Ok(id);
    }

    /** Activates a tab that is not active; no other need be. */
    method Select(id: nat)
      requires Logged(Now(), Log(), nextTabId, nextDownloadId) && id in tabs.Keys
      modifies this`tabs, this`activeTab, this`events
      ensures Logged(Now(), Log(), nextTabId, nextDownloadId) && Now() == Replay1(old(Now()), TabActivated(id))
      ensures tabs.Keys == old(tabs.Keys) && activeTab == Some(id) && Log() == old(Log()) + [TabActivated(id)]
    {
      ghost var before := Now();
      var dimmed := Dimmed(tabs, activeTab);
      tabs := dimmed[id := dimmed[id].(active := true)];
      activeTab := Some(id);
      Push(TabActivated(id), before, nextTabId, nextDownloadId);
    }

    method ActivateTab(id: nat) returns (r: Result<(), BrowserError>)
      requires Valid()
      modifies this`tabs, this`activeTab, this`events
      ensures Valid() && tabs.Keys == old(tabs).Keys
      ensures r.Ok? <==> id in old(tabs)
      ensures r.Ok? ==> activeTab == Some(id)
      ensures r.Err? || old(activeTab) == Some(id) ==> Now() == old(Now()) && Log() == old(Log())
      ensures r.Ok? && old(activeTab) != Some(id) ==> Log() == old(Log()) + [TabActivated(id)]
    {
      if id !in tabs {
        return Err(InvalidTab(id));
      }
      if activeTab == Some(id) {
        return Ok(());
      }
      ActivateKeepsOneActive(Now(), id);
      Select(id);
      return Ok(());
    }

    method Remove(id: nat)
      requires Logged(Now(), Log(), nextTabId, nextDownloadId)
      modifies this`tabs, this`activeTab, this`events
      ensures Logged(Now(), Log(), nextTabId, nextDownloadId) && Now() == Replay1(old(Now()), TabClosed(id))
      ensures tabs.Keys == old(tabs.Keys) - {id} && Log() == old(Log()) + [TabClosed(id)]
    {
      ghost var before := Now();
      activeTab := if activeTab == Some(id) then None else activeTab;
      tabs := tabs - {id};
      Push(TabClosed(id), before, nextTabId, nextDownloadId);
    }

    method CloseTab(id: nat) returns (r: Result<(), BrowserError>)
      requires Valid()
      modifies this`tabs, this`activeTab, this`events
      ensures Valid()
      ensures r.Ok? <==> id in old(tabs)
      ensures r.Err? ==> Now() == old(Now()) && Log() == old(Log())
      ensures r.Ok? ==> tabs.Keys == old(tabs).Keys - {id}
      ensures r.Ok? && old(activeTab) != Some(id) ==>
        activeTab == old(activeTab) && Log() == old(Log()) + [TabClosed(id)]
      ensures r.Ok? && old(activeTab) == Some(id) && tabs.Keys != {} ==>
        activeTab.Some? && TakesOver(tabs.Keys, id, activeTab.value) && Log() == old(Log()) + [TabClosed(id), TabActivated(activeTab.value)]
    {
      if id !in tabs {
        return Err(InvalidTab(id));
      }
      var wasActive := activeTab == Some(id);
      ghost var before := Now();
      CloseKeepsOneActive(before, id);
      Remove(id);
      if wasActive && tabs.Keys != {} {
        var next := NextTab(tabs.Keys, id);
        CloseThenActivate(before, id, next);
        Select(next);
      }
      return Ok(());
    }

    /** The common end of `navigate`, `reload` and `traverse_history` on a tab that exists. */
    method Refresh(id: nat, page: Page) returns (info: TabInfo)
      requires Valid() && id in tabs
      modifies this`tabs, this`events
      ensures Valid()
      ensures info == old(tabs)[id].(url := page.url, title := page.title) && tabs == old(tabs)[id := info]
      ensures Log() == old(Log()) + [TabNavigated(info)]
    {
      ghost var before := Now();
      info := tabs[id].(url := page.url, title := page.title);
      tabs := tabs[id := info];
      Push(TabNavigated(info), before, nextTabId, nextDownloadId);
    }

    method Navigate(id: nat, dispatched: Result<Page, BrowserError>) returns (r: Result<TabInfo, BrowserError>)
      requires Valid()
      modifies this`tabs, this`events
      ensures Valid() && tabs.Keys == old(tabs).Keys
      ensures r.Ok? <==> id in old(tabs) && dispatched.Ok?
      ensures r.Err? ==> Now() == old(Now()) && Log() == old(Log())
      ensures r.Ok? ==> r.value == old(tabs)[id].(url := dispatched.value.url, title := dispatched.value.title)
      ensures r.Ok? ==> tabs == old(tabs)[id := r.value] && Log() == old(Log()) + [TabNavigated(r.value)]
      ensures r.Err? ==> r.error == if id in tabs then Navigation else InvalidTab(id)
    {
      if id !in tabs {
        return Err(InvalidTab(id));
      }
      if dispatched.Err? {
        return Err(Navigation);
      }
      var info := Refresh(id, dispatched.value);
      return Ok(info);
    }

    /** The active tab, if named, always exists, so the source's `expect` cannot fail here. */
    method Reload(dispatched: Result<Page, BrowserError>) returns (r: Result<TabInfo, BrowserError>)
      requires Valid()
      modifies this`tabs, this`events
      ensures Valid() && tabs.Keys == old(tabs).Keys
      ensures r.Ok? <==> old(activeTab).Some? && dispatched.Ok?
      ensures r.Err? ==> Now() == old(Now()) && Log() == old(Log())
      ensures r.Ok? ==>
        var id := old(activeTab).value;
        && r.value == old(tabs)[id].(url := dispatched.value.url, title := dispatched.value.title)
        && tabs == old(tabs)[id := r.value] && Log() == old(Log()) + [TabNavigated(r.value)]
      ensures r.Err? ==> r.error == if activeTab.Some? then Navigation else NoActiveTab
    {
      if activeTab.None? {
        return Err(NoActiveTab);
      }
      r := Navigate(activeTab.value, dispatched);
    }

    method TraverseHistory(delta: int, dispatched: Result<Page, BrowserError>) returns (r: Result<TabInfo, BrowserError>)
      requires Valid()
      modifies this`tabs, this`events
      ensures Valid() && tabs.Keys == old(tabs).Keys
      ensures r.Ok? <==> old(activeTab).Some? && (delta == 0 || dispatched.Ok?)
      ensures r.Err? || delta == 0 ==> Now() == old(Now()) && Log() == old(Log())
      ensures r.Ok? && delta == 0 ==> r.value == tabs[activeTab.value]
      ensures r.Ok? && delta != 0 ==>
        var id := old(activeTab).value;
        && r.value == old(tabs)[id].(url := dispatched.value.url, title := dispatched.value.title)
        && tabs == old(tabs)[id := r.value] && Log() == old(Log()) + [TabNavigated(r.value)]
      ensures r.Err? ==> r.error == if activeTab.Some? then Navigation else NoActiveTab
    {
      if activeTab.None? {
        return Err(NoActiveTab);
      }
      if delta == 0 {
        return Ok(tabs[activeTab.value]);
      }
      r := Navigate(activeTab.value, dispatched);
    }

    method Begin(info: DownloadInfo)
      requires nextDownloadId == info.id + 1 && Logged(Now(), Log(), nextTabId, info.id) && OneActive(Now())
      modifies this`downloads, this`events
      ensures Consistent() && downloads == old(downloads)[info.id := info] && Log() == old(Log()) + [DownloadStarted(info)]
    {
      ghost var before := Now();
      downloads := downloads[info.id := info];
      Push(DownloadStarted(info), before, nextTabId, info.id);
    }

    method Fail(info: DownloadInfo, message: string)
      requires Consistent() && info.id in downloads && downloads[info.id] == info
      modifies this`downloads, this`events
      ensures Consistent() && downloads == old(downloads)[info.id := info.(state := Failed(message))]
      ensures Log() == old(Log()) + [DownloadFailed(info.id, message)]
    {
      ghost var before := Now();
      downloads := downloads[info.id := info.(state := Failed(message))];
      Push(DownloadFailed(info.id, message), before, nextTabId, nextDownloadId);
    }

    /** `filename` is the sanitized suggestion or the one derived from the address. */
    method Download(url: string, filename: string, suggested: bool, fetched: Result<Response, string>)
      returns (r: Result<nat, BrowserError>)
      requires Valid()
      modifies this`downloads, this`nextDownloadId, this`events
      ensures Valid()
      ensures r.Ok? <==> old(activeTab).Some? && old(nextDownloadId) < U64_MAX && fetched.Ok?
      ensures old(activeTab).None? || old(nextDownloadId) >= U64_MAX ==> Now() == old(Now()) && Log() == old(Log())
      ensures r.Ok? ==> r.value == old(nextDownloadId) && r.value !in old(downloads)
      ensures r.Ok? ==>
        var response := fetched.value;
        var named := if suggested || response.named.None? then filename else response.named.value;
        var first := DownloadInfo(r.value, url, filename, None, [], InProgress(0, None));
        var done := DownloadInfo(r.value, url, named, response.mimeType, response.body, Completed);
        && downloads == old(downloads)[r.value := done]
        && Log() == old(Log()) + [DownloadStarted(first), DownloadProgress(r.value, |response.body|, response.length), DownloadFinished(done)]
      ensures old(activeTab).Some? && old(nextDownloadId) < U64_MAX && fetched.Err? ==>
        var first := DownloadInfo(old(nextDownloadId), url, filename, None, [], InProgress(0, None));
        && r == Err(FailedDownload(first.id, fetched.error)) && downloads == old(downloads)[first.id := first.(state := Failed(fetched.error))]
        && Log() == old(Log()) + [DownloadStarted(first), DownloadFailed(first.id, fetched.error)]
    {
      if activeTab.None? {
        return Err(NoActiveTab);
      }
      var id := nextDownloadId;
      if id >= U64_MAX {
        return Err(IdExhausted);
      }
      nextDownloadId := id + 1;
      var info := Requested(id, url, filename);
      Begin(info);
      r := Conclude(info, suggested, fetched);
    }

    /** What becomes of a download that has begun. */
    method Conclude(first: DownloadInfo, suggested: bool, fetched: Result<Response, string>) returns (r: Result<nat, BrowserError>)
      requires Consistent() && first.id in downloads && downloads[first.id] == first && first.id < nextDownloadId
      modifies this`downloads, this`events
      ensures Consistent()
      ensures match fetched
        case Err(message) =>
          && r == Err(FailedDownload(first.id, message)) && downloads == old(downloads)[first.id := first.(state := Failed(message))]
          && Log() == old(Log()) + [DownloadFailed(first.id, message)]
        case Ok(response) =>
          var done := Received(first, suggested, response).(bytes := response.body, state := Completed);
          && r == Ok(first.id) && downloads == old(downloads)[first.id := done]
          && Log() == old(Log()) + [DownloadProgress(first.id, |response.body|, response.length), DownloadFinished(done)]
    {
      if fetched.Err? {
        Fail(first, fetched.error);
        return Err(FailedDownload(first.id, fetched.error));
      }
      var response := fetched.value;
      var info := first.(mimeType := response.mimeType);
      if !suggested && response.named.Some? {
        info := info.(filename := response.named.value);
      }
      Finish(info, response);
      return Ok(first.id);
    }

    /**
     The end of a download that got its response. The stored record already carries the
     type and name from the response, which the log learns only from the last event.
     */
    method Finish(info: DownloadInfo, response: Response)
      requires Consistent() && info.id in downloads && info.id < nextDownloadId
      modifies this`downloads, this`events
      ensures Consistent()
      ensures downloads == old(downloads)[info.id := info.(bytes := response.body, state := Completed)]
      ensures Log() == old(Log()) + [DownloadProgress(info.id, |response.body|, response.length),
                                     DownloadFinished(info.(bytes := response.body, state := Completed))]
    {
      FinishLogged(Now(), Log(), nextTabId, nextDownloadId, info, response);
      var id, size := info.id, |response.body|;
      var loading := info.(state := InProgress(size, response.length));
      downloads := downloads[id := loading];
      events := events + [DownloadProgress(id, size, response.length)];
      var done := info.(bytes := response.body, state := Completed);
      downloads := downloads[id := done];
      events := events + [DownloadFinished(done)];
      assert Log() == old(Log()) + [DownloadProgress(id, size, response.length), DownloadFinished(done)];
    }

    /**
     Cancelling works on a download in progress. Since none is ever in progress between
     calls, from a settled browser it always fails and changes nothing.
     */
    method CancelDownload(id: nat) returns (r: Result<(), BrowserError>)
      requires Consistent()
      modifies this`downloads, this`events
      ensures Consistent()
      ensures r.Ok? <==> id in old(downloads) && old(downloads)[id].state.InProgress?
      ensures r.Ok? ==> downloads == old(downloads)[id := old(downloads)[id].(state := Cancelled, bytes := [])] &&
                        Log() == old(Log()) + [DownloadCancelled(id)]
      ensures r.Err? ==> Now() == old(Now()) && Log() == old(Log())
      ensures old(Settled()) ==> r.Err? && Valid()
    {
      if id !in downloads {
        return Err(InvalidDownload(id));
      }
      if !downloads[id].state.InProgress? {
        return Err(DownloadAlreadyFinished(id));
      }
      ghost var before := Now();
      downloads := downloads[id := downloads[id].(state := Cancelled, bytes := [])];
      Push(DownloadCancelled(id), before, nextTabId, nextDownloadId);
      return Ok(());
    }

    method DrainEvents() returns (out: seq<BrowserEvent>)
      requires Valid()
      modifies this`events, this`drained
      ensures Valid() && out == old(events) && events == [] && Log() == old(Log())
    {
      out := events;
      assert drained + events == (drained + events) + [];
      drained := drained + events;
      events := [];
    }
  }
}
