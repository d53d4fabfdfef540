/**
  The open-tab collection of `TabsProvider`: an ordered list of tabs and the id of the active
  one. Each operation is a pure transition of that pair; the fresh id `nanoid()` would draw
  is passed in by the caller.
 */
module Tabs {
  import opened Wrappers

  /** `TabItem` (the optional favicon and screenshot are never read by the operations). */
  datatype Tab = Tab(id: string, title: string, url: string)

  datatype TabsState = TabsState(tabs: seq<Tab>, active: Option<string>)

  /** The state before anything is loaded or added. */
  const Initial: TabsState := TabsState([], None)

  /** Position `i` holds the first tab whose url is `url`. */
  predicate FirstWithUrl(tabs: seq<Tab>, url: string, i: int)
  {
    0 <= i < |tabs| && tabs[i].url == url && forall j :: 0 <= j < i ==> tabs[j].url != url
  }

  /** Position `i` holds the first tab whose id is `id`. */
  predicate FirstWithId(tabs: seq<Tab>, id: string, i: int)
  {
    0 <= i < |tabs| && tabs[i].id == id && forall j :: 0 <= j < i ==> tabs[j].id != id
  }

  predicate HasUrl(tabs: seq<Tab>, url: string)
  {
    exists i :: 0 <= i < |tabs| && tabs[i].url == url
  }

  predicate HasId(tabs: seq<Tab>, id: string)
  {
    exists i :: 0 <= i < |tabs| && tabs[i].id == id
  }

  /** `tabs.find(tab => tab.url === url)`. */
  function FindByUrl(tabs: seq<Tab>, url: string): (r: Option<Tab>)
    ensures r.None? <==> !HasUrl(tabs, url)
    ensures r.Some? ==> exists i :: FirstWithUrl(tabs, url, i) && r.value == tabs[i]
  {
    if tabs == [] then None
    else if tabs[0].url == url then
      assert FirstWithUrl(tabs, url, 0);
      Some(tabs[0])
    else
      var r := FindByUrl(tabs[1..], url);
      assert forall i :: FirstWithUrl(tabs[1..], url, i) ==> FirstWithUrl(tabs, url, i + 1);
      assert forall i :: 0 <= i < |tabs[1..]| ==> tabs[1..][i] == tabs[i + 1];
      r
  }

  /** `getTabById(id)`: the first tab with that id, if any. */
  function GetTabById(tabs: seq<Tab>, id: string): (r: Option<Tab>)
    ensures r.None? <==> !HasId(tabs, id)
    ensures r.Some? ==> exists i :: FirstWithId(tabs, id, i) && r.value == tabs[i]
  {
    if tabs == [] then None
    else if tabs[0].id == id then
      assert FirstWithId(tabs, id, 0);
      Some(tabs[0])
    else
      var r := GetTabById(tabs[1..], id);
      assert forall i :: FirstWithId(tabs[1..], id, i) ==> FirstWithId(tabs, id, i + 1);
      assert forall i :: 0 <= i < |tabs[1..]| ==> tabs[1..][i] == tabs[i + 1];
      r
  }

  /**
    `addTab(url, title)`: focus the first tab already showing `url`, or append a new tab with
    the fresh id, titled `title` (or the url when the title is empty), and focus it.
   */
  function AddTab(st: TabsState, url: string, title: string, freshId: string): (r: TabsState)
    ensures HasUrl(st.tabs, url) ==>
      r.tabs == st.tabs && exists i :: FirstWithUrl(st.tabs, url, i) && r.active == Some(st.tabs[i].id)
    ensures !HasUrl(st.tabs, url) ==>
      && |r.tabs| == |st.tabs| + 1
      && r.tabs[..|st.tabs|] == st.tabs
      && r.tabs[|st.tabs|] == Tab(freshId, if title == "" then url else title, url)
      && r.active == Some(freshId)
  {
    match FindByUrl(st.tabs, url)
    case Some(existing) => st.(active := Some(existing.id))
    case None =>
      var newTab := Tab(freshId, if title == "" then url else title, url);
      TabsState(st.tabs + [newTab], Some(newTab.id))
  }

  /** `tabs.filter(tab => tab.id !== id)`. */
  function Without(tabs: seq<Tab>, id: string): (r: seq<Tab>)
    ensures forall t :: t in r <==> t in tabs && t.id != id
    ensures |r| <= |tabs|
  {
    if tabs == [] then []
    else if tabs[0].id == id then Without(tabs[1..], id)
    else [tabs[0]] + Without(tabs[1..], id)
  }

  /**
    `removeTab(id)`: drop every tab with that id; when it was the active one, the last
    remaining tab becomes active (none if no tab remains, or if that tab's id is empty,
    which `|| null` turns into null).
   */
  function RemoveTab(st: TabsState, id: string): (r: TabsState)
    ensures r.tabs == Without(st.tabs, id)
    ensures st.active != Some(id) ==> r.active == st.active
    ensures st.active == Some(id) && r.tabs == [] ==> r.active == None
    ensures st.active == Some(id) && r.tabs != [] && r.tabs[|r.tabs| - 1].id != "" ==>
      r.active == Some(r.tabs[|r.tabs| - 1].id)
    ensures st.active == Some(id) && r.tabs != [] && r.tabs[|r.tabs| - 1].id == "" ==> r.active == None
  {
    var newTabs := Without(st.tabs, id);
    if st.active == Some(id) then
      var lastId := if newTabs == [] then None else Some(newTabs[|newTabs| - 1].id);
      TabsState(newTabs, if lastId.Some? && lastId.value != "" then lastId else None)
    else
      TabsState(newTabs, st.active)
  }

  /** `clearAllTabs()`. */
  function ClearAllTabs(st: TabsState): (r: TabsState)
    ensures r.tabs == [] && r.active == None
  {
    Initial
  }

  /** `setActiveTab(id)`: the state setter, exposed as is. */
  function SetActiveTab(st: TabsState, active: Option<string>): TabsState
  {
    st.(active := active)
  }

  /** Removing preserves the relative order of the kept tabs: it distributes over concatenation. */
  lemma {:induction false} WithoutAppend(a: seq<Tab>, b: seq<Tab>, id: string)
    ensures Without(a + b, id) == Without(a, id) + Without(b, id)
  {
    if a != [] {
      assert (a + b)[1..] == a[1..] + b;
      WithoutAppend(a[1..], b, id);
    } else {
      assert a + b == b;
    }
  }

  /** Removing an id that no tab carries changes nothing. */
  lemma {:induction false} WithoutAbsent(tabs: seq<Tab>, id: string)
    requires !HasId(tabs, id)
    ensures Without(tabs, id) == tabs
  {
    if tabs != [] {
      assert tabs[0].id != id;
      assert !HasId(tabs[1..], id) by {
        forall i | 0 <= i < |tabs[1..]|
          ensures tabs[1..][i].id != id
        {
          assert tabs[1..][i] == tabs[i + 1];
        }
      }
      WithoutAbsent(tabs[1..], id);
      assert [tabs[0]] + tabs[1..] == tabs;
    }
  }

  predicate UrlsDistinct(tabs: seq<Tab>)
  {
    forall i, j :: 0 <= i < j < |tabs| ==> tabs[i].url != tabs[j].url
  }

  predicate IdsDistinct(tabs: seq<Tab>)
  {
    forall i, j :: 0 <= i < j < |tabs| ==> tabs[i].id != tabs[j].id
  }

  /** The active id, when there is one, belongs to an open tab. */
  predicate ActiveIsOpen(st: TabsState)
  {
    st.active.Some? ==> HasId(st.tabs, st.active.value)
  }

  /** `addTab` never introduces a second tab for one url. */
  lemma AddTabKeepsUrlsDistinct(st: TabsState, url: string, title: string, freshId: string)
    requires UrlsDistinct(st.tabs)
    ensures UrlsDistinct(AddTab(st, url, title, freshId).tabs)
  {
    var r := AddTab(st, url, title, freshId);
    if !HasUrl(st.tabs, url) {
      forall i, j | 0 <= i < j < |r.tabs|
        ensures r.tabs[i].url != r.tabs[j].url
      {
        if j == |st.tabs| {
          assert r.tabs[i] == st.tabs[i];
        } else {
          assert r.tabs[i] == st.tabs[i] && r.tabs[j] == st.tabs[j];
        }
      }
    }
  }

  /** With a fresh id, `addTab` keeps ids distinct. */
  lemma AddTabKeepsIdsDistinct(st: TabsState, url: string, title: string, freshId: string)
    requires IdsDistinct(st.tabs)
    requires !HasId(st.tabs, freshId)
    ensures IdsDistinct(AddTab(st, url, title, freshId).tabs)
  {
    var r := AddTab(st, url, title, freshId);
    if !HasUrl(st.tabs, url) {
      forall i, j | 0 <= i < j < |r.tabs|
        ensures r.tabs[i].id != r.tabs[j].id
      {
        if j == |st.tabs| {
          assert r.tabs[i] == st.tabs[i];
        } else {
          assert r.tabs[i] == st.tabs[i] && r.tabs[j] == st.tabs[j];
        }
      }
    }
  }

  /** A tab whose url no other tab has can go in front of a url-distinct list. */
  lemma ConsKeepsUrlsDistinct(t: Tab, rest: seq<Tab>)
    requires UrlsDistinct(rest)
    requires forall j :: 0 <= j < |rest| ==> rest[j].url != t.url
    ensures UrlsDistinct([t] + rest)
  {
    var r := [t] + rest;
    forall i, j | 0 <= i < j < |r|
      ensures r[i].url != r[j].url
    {
      assert r[j] == rest[j - 1];
      if i > 0 {
        assert r[i] == rest[i - 1];
      }
    }
  }

  /** Removal keeps the kept tabs' urls distinct. */
  lemma {:induction false} WithoutKeepsUrlsDistinct(tabs: seq<Tab>, id: string)
    requires UrlsDistinct(tabs)
    ensures UrlsDistinct(Without(tabs, id))
  {
    if tabs != [] {
      var rest := Without(tabs[1..], id);
      assert UrlsDistinct(tabs[1..]) by {
        assert forall i :: 0 <= i < |tabs[1..]| ==> tabs[1..][i] == tabs[i + 1];
      }
      WithoutKeepsUrlsDistinct(tabs[1..], id);
      if tabs[0].id != id {
        forall j | 0 <= j < |rest|
          ensures rest[j].url != tabs[0].url
        {
          assert rest[j] in tabs[1..];
          var k :| 0 <= k < |tabs[1..]| && tabs[1..][k] == rest[j];
          assert tabs[k + 1] == rest[j];
        }
        ConsKeepsUrlsDistinct(tabs[0], rest);
      }
    }
  }

  /** Every transition keeps the active id pointing at an open tab. */
  lemma AddTabKeepsActiveOpen(st: TabsState, url: string, title: string, freshId: string)
    ensures ActiveIsOpen(AddTab(st, url, title, freshId))
  {
    var r := AddTab(st, url, title, freshId);
    if !HasUrl(st.tabs, url) {
      assert r.tabs[|st.tabs|].id == freshId;
    }
  }

  lemma RemoveTabKeepsActiveOpen(st: TabsState, id: string)
    requires ActiveIsOpen(st)
    ensures ActiveIsOpen(RemoveTab(st, id))
  {
    var r := RemoveTab(st, id);
    if r.active.Some? {
      if st.active == Some(id) {
        assert r.tabs[|r.tabs| - 1] in r.tabs;
      } else {
        var i :| 0 <= i < |st.tabs| && st.tabs[i].id == st.active.value;
        assert st.tabs[i] in r.tabs;
      }
    }
  }

  /** Removing a tab never leaves its id active. */
  lemma RemovedIdNotActive(st: TabsState, id: string)
    ensures RemoveTab(st, id).active != Some(id)
  {
    var r := RemoveTab(st, id);
    if st.active == Some(id) && r.tabs != [] {
      assert r.tabs[|r.tabs| - 1] in r.tabs;
    }
  }
}
