/**
  The Microsoft 365 inventory (`m365/inventory.py`): a replica of one drive, kept
  current from a change feed.

  Graph is a ghost log of changes, and a delta link stands for a position in it.
  What a feed may deliver is `Honest`: changes may be repeated, merged and
  reordered as long as the last word on every item is true.
 */
module Inventory {
  import opened Prelude

  datatype Kind = Root | Folder | File | Other

  datatype Record = Record(name: string, parent: string, kind: Kind, size: int, modified: string, webUrl: string)

  /** A delta item. An empty `id` or `name` is a missing one. */
  datatype Item = Item(id: string, deleted: bool, record: Record)

  type View = map<string, Record>

  function Get(view: View, id: string): Option<Record> { if id in view then Some(view[id]) else None }

  /** `_record_for`: an item without a name keeps the one the replica knows. */
  function RecordFor(item: Item, previous: Option<Record>): Record {
    if item.record.name == "" then
      item.record.(name := if previous.Some? then previous.value.name else "")
    else
      item.record
  }

  function ApplyItem(view: View, item: Item): View {
    if item.id == "" then view
    else if item.deleted then view - {item.id}
    else view[item.id := RecordFor(item, Get(view, item.id))]
  }

  function ApplyItems(view: View, items: seq<Item>): View {
    if items == [] then view
    else ApplyItem(ApplyItems(view, items[..|items| - 1]), items[|items| - 1])
  }

  lemma {:induction false} ApplyItemsAppend(view: View, a: seq<Item>, b: seq<Item>)
    ensures ApplyItems(view, a + b) == ApplyItems(ApplyItems(view, a), b)
    decreases |b|
  {
    if b == [] {
      assert a + b == a;
    } else {
      var m := |b| - 1;
      assert (a + b)[..|a + b| - 1] == a + b[..m];
      ApplyItemsAppend(view, a, b[..m]);
    }
  }

  /** Items with an id; the others are skipped and not counted. */
  function Counted(items: seq<Item>): nat {
    if items == [] then 0
    else Counted(items[..|items| - 1]) + if items[|items| - 1].id == "" then 0 else 1
  }

  lemma {:induction false} CountedAppend(a: seq<Item>, b: seq<Item>)
    ensures Counted(a + b) == Counted(a) + Counted(b)
    decreases |b|
  {
    if b == [] {
      assert a + b == a;
    } else {
      assert (a + b)[..|a + b| - 1] == a + b[..|b| - 1];
      CountedAppend(a, b[..|b| - 1]);
    }
  }

  lemma {:induction false} NothingCounted(view: View, items: seq<Item>)
    requires Counted(items) == 0
    ensures ApplyItems(view, items) == view
  {
    if items != [] {
      NothingCounted(view, items[..|items| - 1]);
    }
  }

  // ----- the drive and what its feed may say -------------------------------------

  datatype Change = Put(id: string, record: Record) | Remove(id: string)

  function Changed(view: View, change: Change): View {
    match change
    case Put(id, record) => view[id := record]
    case Remove(id) => view - {id}
  }

  /** The drive after the changes of `log`. */
  function Replay(log: seq<Change>): View {
    if log == [] then map[] else Changed(Replay(log[..|log| - 1]), log[|log| - 1])
  }

  /** The last item about `id`. */
  function LastAbout(items: seq<Item>, id: string): Option<Item> {
    if items == [] || id == "" then None
    else if items[|items| - 1].id == id then Some(items[|items| - 1])
    else LastAbout(items[..|items| - 1], id)
  }

  /** No item about `id` names or deletes it. */
  predicate Nameless(items: seq<Item>, id: string) {
    forall k :: 0 <= k < |items| && items[k].id == id ==> items[k].record.name == "" && !items[k].deleted
  }

  /** What the items say about `id` takes `before` to `after`. */
  predicate Tells(before: View, items: seq<Item>, after: View, id: string) {
    match LastAbout(items, id)
    case None => Get(after, id) == Get(before, id)
    case Some(item) =>
      if item.deleted then id !in after
      else if item.record.name != "" then Get(after, id) == Some(item.record)
      else Nameless(items, id) && id in before && Get(after, id) == Some(item.record.(name := before[id].name))
  }

  ghost predicate Honest(before: View, items: seq<Item>, after: View) {
    forall id :: Tells(before, items, after, id)
  }

  lemma {:induction false} AppliedAt(before: View, items: seq<Item>, id: string)
    ensures match LastAbout(items, id)
            case None => Get(ApplyItems(before, items), id) == Get(before, id)
            case Some(item) =>
              && (item.deleted ==> id !in ApplyItems(before, items))
              && (!item.deleted && item.record.name != "" ==> Get(ApplyItems(before, items), id) == Some(item.record))
              && (Nameless(items, id) && id in before ==>
                  Get(ApplyItems(before, items), id) == Some(item.record.(name := before[id].name)))
    decreases |items|
  {
    if items != [] {
      var init := items[..|items| - 1];
      AppliedAt(before, init, id);
      if Nameless(items, id) && id in before && items[|items| - 1].id == id && id != "" {
        assert items[|items| - 1].record.name == "";
        NamelessKeepsName(before, init, id);
      }
    }
  }

  lemma {:induction false} NamelessKeepsName(before: View, items: seq<Item>, id: string)
    requires Nameless(items, id) && id in before
    ensures id in ApplyItems(before, items) && ApplyItems(before, items)[id].name == before[id].name
    decreases |items|
  {
    if items != [] {
      NamelessKeepsName(before, items[..|items| - 1], id);
      assert items[|items| - 1].id == id ==> items[|items| - 1].record.name == "";
    }
  }

  /** Applying an honest feed to the drive as it was gives the drive as it is. */
  lemma HonestFeed(before: View, items: seq<Item>, after: View)
    requires Honest(before, items, after)
    ensures ApplyItems(before, items) == after
  {
    var got := ApplyItems(before, items);
    forall id ensures Get(got, id) == Get(after, id) {
      AppliedAt(before, items, id);
      assert Tells(before, items, after, id);
    }
    forall id ensures (id in got) == (id in after) && (id in got ==> got[id] == after[id]) {
      assert Get(got, id) == Get(after, id);
    }
  }

  predicate Touched(log: seq<Change>, id: string) { exists k :: 0 <= k < |log| && log[k].id == id }

  lemma {:induction false} UntouchedStays(log: seq<Change>, more: seq<Change>, id: string)
    requires !Touched(more, id)
    ensures Get(Replay(log + more), id) == Get(Replay(log), id)
    decreases |more|
  {
    if more == [] {
      assert log + more == log;
    } else {
      var init := more[..|more| - 1];
      assert (log + more)[..|log + more| - 1] == log + init;
      assert more[|more| - 1].id != id;
      assert forall k :: 0 <= k < |init| ==> init[k] == more[k];
      UntouchedStays(log, init, id);
    }
  }

  /** An item that states what the drive holds. */
  predicate Final(item: Item, drive: View) {
    if item.id in drive then !item.deleted && item.record == drive[item.id] && item.record.name != ""
    else item.deleted
  }

  lemma {:induction false} LastAboutIsAbout(items: seq<Item>, id: string)
    ensures LastAbout(items, id).Some? ==> LastAbout(items, id).value in items && LastAbout(items, id).value.id == id
    ensures LastAbout(items, id).None? && id != "" ==> forall k :: 0 <= k < |items| ==> items[k].id != id
    decreases |items|
  {
    if items != [] && id != "" && items[|items| - 1].id != id {
      LastAboutIsAbout(items[..|items| - 1], id);
      assert items == items[..|items| - 1] + [items[|items| - 1]];
    }
  }

  /** Graph's promise: every item changed since the link is reported, in its present state, in any order, with any repeats. */
  lemma FinalStatesAreHonest(log: seq<Change>, more: seq<Change>, items: seq<Item>)
    requires forall k :: 0 <= k < |more| ==> more[k].id != "" && exists j :: 0 <= j < |items| && items[j].id == more[k].id
    requires forall j :: 0 <= j < |items| ==> Final(items[j], Replay(log + more))
    ensures Honest(Replay(log), items, Replay(log + more))
  {
    forall id ensures Tells(Replay(log), items, Replay(log + more), id) {
      LastAboutIsAbout(items, id);
      if LastAbout(items, id).None? {
        assert !Touched(more, id);
        UntouchedStays(log, more, id);
      }
    }
  }

  // ----- the replica -------------------------------------------------------------

  datatype Saved = Saved(items: View, link: nat)

  /** What `delta_pages` yields: a page, or one of its two exceptions. */
  datatype Event = Page(items: seq<Item>, link: Option<nat>) | RequestError | TokenInvalid

  datatype Ending = Ended(link: Option<nat>) | Broken | Expired

  datatype Outcome =
    | Refreshed(changes: nat, count: nat)
    | FeedFailed | TokenExpired | NoLink | FolderMissing | SaveFailed

  /** The memory of a running inventory and the file it saves; `link` is None until the first refresh succeeds. */
  datatype State = State(items: View, link: Option<nat>, disk: Option<Saved>)

  /** The items a feed delivers before it ends. */
  function Delivered(feed: seq<Event>): seq<Item> {
    if feed == [] || !feed[0].Page? then [] else feed[0].items + Delivered(feed[1..])
  }

  /** How a feed ends, given the link handed over so far. */
  function EndingOf(feed: seq<Event>, link: Option<nat>): Ending {
    if feed == [] then Ended(link)
    else match feed[0]
      case Page(_, next) => EndingOf(feed[1..], if next.Some? then next else link)
      case RequestError => Broken
      case TokenInvalid => Expired
  }

  datatype Pair = Pair(state: State, outcome: Outcome)

  /** `_refresh_from`, as a function of what the feed delivered. */
  function RefreshedFrom(s: State, from: Option<nat>, feed: seq<Event>, folder: Option<string>, saves: bool): Pair {
    match EndingOf(feed, None)
    case Broken => Pair(s, FeedFailed)
    case Expired => Pair(s, TokenExpired)
    case Ended(None) => Pair(s, NoLink)
    case Ended(Some(link)) =>
      var staged := ApplyItems(if from.Some? then s.items else map[], Delivered(feed));
      var changes := Counted(Delivered(feed));
      if folder.Some? && folder.value !in staged then Pair(s, FolderMissing)
      else if changes == 0 && from.Some? then Pair(State(staged, Some(link), s.disk), Refreshed(0, |staged|))
      else if saves then Pair(State(staged, Some(link), Some(Saved(staged, link))), Refreshed(changes, |staged|))
      else Pair(State(staged, Some(link), s.disk), SaveFailed)
  }

  /** `refresh`: an expired link means reading the whole library again. */
  function RefreshedOnce(s: State, feed: seq<Event>, again: seq<Event>, folder: Option<string>, saves: bool): Pair {
    var first := RefreshedFrom(s, s.link, feed, folder, saves);
    if first.outcome.TokenExpired? then RefreshedFrom(s, None, again, folder, saves) else first
  }

  /** `_load` in a new process. */
  function Loaded(disk: Option<Saved>): State {
    match disk
    case None => State(map[], None, None)
    case Some(saved) => State(saved.items, Some(saved.link), disk)
  }

  /** The inner loop: one page applied to the staged copy. */
  method StagePage(view: View, page: seq<Item>) returns (staged: View, changed: nat)
    ensures staged == ApplyItems(view, page) && changed == Counted(page)
  {
    staged, changed := view, 0;
    for j := 0 to |page|
      invariant staged == ApplyItems(view, page[..j]) && changed == Counted(page[..j])
    {
      assert page[..j + 1][..j] == page[..j];
      if page[j].id != "" {
        changed := changed + 1;
        if page[j].deleted {
          staged := staged - {page[j].id};
        } else {
          staged := staged[page[j].id := RecordFor(page[j], Get(staged, page[j].id))];
        }
      }
    }
    assert page[..|page|] == page;
  }

  /** The outer loop: pages are staged until one does not come. */
  method StageFeed(start: View, feed: seq<Event>) returns (staged: View, changed: nat, ending: Ending)
    ensures ending == EndingOf(feed, None)
    ensures ending.Ended? ==> staged == ApplyItems(start, Delivered(feed)) && changed == Counted(Delivered(feed))
  {
    staged, changed := start, 0;
    var newLink := None;
    assert feed[0..] == feed && feed[..0] == [];
    for i := 0 to |feed|
      invariant StagedUpTo(feed, i, start, staged, changed, newLink)
    {
      if !feed[i].Page? {
        return staged, changed, if feed[i].RequestError? then Broken else Expired;
      }
      StagedNext(feed, i, start, staged, changed, newLink);
      var counted;
      staged, counted := StagePage(staged, feed[i].items);
      changed := changed + counted;
      if feed[i].link.Some? {
        newLink := feed[i].link;
      }
    }
    StagedAll(feed, start, staged, changed, newLink);
    ending := Ended(newLink);
  }

  class DriveInventory {
    const folder: Option<string>   // None when the configured folder is the drive's root
    var items: View
    var deltaLink: Option<nat>
    var complete: bool
    var disk: Option<Saved>

    ghost predicate Valid() reads this { complete == deltaLink.Some? }

    ghost function Abstract(): State reads this { State(items, deltaLink, disk) }

    constructor (folder: Option<string>, disk: Option<Saved>)
      ensures Valid() && this.folder == folder && Abstract() == Loaded(disk)
    {
      this.folder, this.disk := folder, disk;
      items, deltaLink, complete := map[], None, false;
      if disk.Some? {
        items, deltaLink, complete := disk.value.items, Some(disk.value.link), true;
      }
    }

    method RefreshFrom(from: Option<nat>, feed: seq<Event>, saves: bool) returns (outcome: Outcome)
      requires Valid()
      modifies this
      ensures Valid()
      ensures Pair(Abstract(), outcome) == RefreshedFrom(old(Abstract()), from, feed, folder, saves)
    {
      var staged, changed, ending := StageFeed(if from.Some? then items else map[], feed);
      if !ending.Ended? {
        return if ending.Broken? then FeedFailed else TokenExpired;
      }
      var newLink := ending.link;
      if newLink == None {
        return NoLink;
      }
      if folder.Some? && folder.value !in staged {
        return FolderMissing;
      }
      deltaLink, items, complete := newLink, staged, true;
      if changed > 0 || from == None {
        if !saves {
          return SaveFailed;
        }
        disk := Some(Saved(items, newLink.value));
      }
      return Refreshed(changed, |staged|);
    }

    method Refresh(feed: seq<Event>, again: seq<Event>, saves: bool) returns (outcome: Outcome)
      requires Valid()
      modifies this
      ensures Valid()
      ensures Pair(Abstract(), outcome) == RefreshedOnce(old(Abstract()), feed, again, folder, saves)
    {
      outcome := RefreshFrom(deltaLink, feed, saves);
      if outcome == TokenExpired {
        outcome := RefreshFrom(None, again, saves);
      }
    }
  }

  lemma {:induction false} DeliveredSplit(feed: seq<Event>, i: nat)
    requires i <= |feed| && forall k :: 0 <= k < i ==> feed[k].Page?
    ensures Delivered(feed) == Delivered(feed[..i]) + Delivered(feed[i..])
  {
    if i == 0 {
      assert feed[i..] == feed;
    } else {
      DeliveredSplit(feed[1..], i - 1);
      assert feed[1..][..i - 1] == feed[..i][1..] && feed[1..][i - 1..] == feed[i..];
    }
  }

  lemma DeliveredNext(feed: seq<Event>, i: nat)
    requires i < |feed| && forall k :: 0 <= k <= i ==> feed[k].Page?
    ensures Delivered(feed[..i + 1]) == Delivered(feed[..i]) + feed[i].items
  {
    var first := feed[..i + 1];
    assert first[..i] == feed[..i] && first[i..] == [feed[i]];
    assert forall k :: 0 <= k < i ==> first[k] == feed[k];
    DeliveredSplit(first, i);
    DeliveredOne(feed[i]);
  }

  lemma DeliveredOne(page: Event)
    requires page.Page?
    ensures Delivered([page]) == page.items
  {
    assert [page][1..] == [];
  }

  /** The loop over a feed after `i` pages. */
  ghost predicate StagedUpTo(feed: seq<Event>, i: nat, start: View, staged: View, changed: nat, newLink: Option<nat>)
    requires i <= |feed|
  {
    && (forall k :: 0 <= k < i ==> feed[k].Page?)
    && staged == ApplyItems(start, Delivered(feed[..i])) && changed == Counted(Delivered(feed[..i]))
    && EndingOf(feed, None) == EndingOf(feed[i..], newLink)
  }

  lemma StagedNext(feed: seq<Event>, i: nat, start: View, staged: View, changed: nat, newLink: Option<nat>)
    requires i < |feed| && feed[i].Page? && StagedUpTo(feed, i, start, staged, changed, newLink)
    ensures StagedUpTo(feed, i + 1, start, ApplyItems(staged, feed[i].items), changed + Counted(feed[i].items),
                       if feed[i].link.Some? then feed[i].link else newLink)
  {
    DeliveredNext(feed, i);
    ApplyItemsAppend(start, Delivered(feed[..i]), feed[i].items);
    CountedAppend(Delivered(feed[..i]), feed[i].items);
    assert feed[i..][0] == feed[i] && feed[i..][1..] == feed[i + 1..];
  }

  lemma StagedAll(feed: seq<Event>, start: View, staged: View, changed: nat, newLink: Option<nat>)
    requires StagedUpTo(feed, |feed|, start, staged, changed, newLink)
    ensures staged == ApplyItems(start, Delivered(feed)) && changed == Counted(Delivered(feed))
    ensures EndingOf(feed, None) == EndingOf([], newLink)
  {
    assert feed[..|feed|] == feed && feed[|feed|..] == [];
  }

  // ----- what holds over every run -------------------------------------------------

  /** Memory and disk are the drive as it was at their links. */
  predicate Replica(s: State, log: seq<Change>) {
    && (s.link.None? ==> s.items == map[])
    && (s.link.Some? ==> s.link.value <= |log| && s.items == Replay(log[..s.link.value]))
    && (s.disk.Some? ==> s.disk.value.link <= |log| && s.disk.value.items == Replay(log[..s.disk.value.link]))
  }

  /** A feed asked for at `from` that hands over a link tells what happened between the two. */
  ghost predicate Serves(feed: seq<Event>, from: Option<nat>, log: seq<Change>) {
    match EndingOf(feed, None)
    case Ended(Some(link)) =>
      && link <= |log| && (from.Some? ==> from.value <= |log|)
      && Honest(if from.Some? then Replay(log[..from.value]) else map[], Delivered(feed), Replay(log[..link]))
    case _ => true
  }

  lemma RefreshKeepsReplica(s: State, log: seq<Change>, from: Option<nat>, feed: seq<Event>, folder: Option<string>, saves: bool)
    requires Replica(s, log) && Serves(feed, from, log) && (from.Some? ==> from == s.link)
    ensures Replica(RefreshedFrom(s, from, feed, folder, saves).state, log)
  {
    match EndingOf(feed, None) {
      case Ended(Some(link)) =>
        HonestFeed(if from.Some? then s.items else map[], Delivered(feed), Replay(log[..link]));
      case _ =>
    }
  }

  // ----- when a feed is taken over -----------------------------------------------------

  /** The first event that is no page. */
  predicate BreaksAt(feed: seq<Event>, i: nat) { i < |feed| && !feed[i].Page? && forall k :: 0 <= k < i ==> feed[k].Page? }

  /** `link` is the last one handed over by the pages, or `before` if none did. */
  predicate LastLink(feed: seq<Event>, before: Option<nat>, link: Option<nat>)
    requires forall k :: 0 <= k < |feed| ==> feed[k].Page?
  {
    || (link == before && forall k :: 0 <= k < |feed| ==> feed[k].link.None?)
    || (exists i :: 0 <= i < |feed| && feed[i].link.Some? && feed[i].link == link && forall k :: i < k < |feed| ==> feed[k].link.None?)
  }

  /** How a feed ends: by the first event that is no page, else with the last link. */
  lemma {:induction false} EndingExact(feed: seq<Event>, before: Option<nat>)
    ensures EndingOf(feed, before).Broken? <==> exists i: nat :: BreaksAt(feed, i) && feed[i].RequestError?
    ensures EndingOf(feed, before).Expired? <==> exists i: nat :: BreaksAt(feed, i) && feed[i].TokenInvalid?
    ensures EndingOf(feed, before).Ended? <==> forall k :: 0 <= k < |feed| ==> feed[k].Page?
    ensures EndingOf(feed, before).Ended? ==> LastLink(feed, before, EndingOf(feed, before).link)
  {
    if feed == [] {
    } else if !feed[0].Page? {
      assert BreaksAt(feed, 0);
    } else {
      var rest := feed[1..];
      var link := if feed[0].link.Some? then feed[0].link else before;
      EndingExact(rest, link);
      assert forall i: nat :: BreaksAt(rest, i) ==> BreaksAt(feed, i + 1);
      assert forall i: nat :: BreaksAt(feed, i) ==> i > 0 && BreaksAt(rest, i - 1);
      if EndingOf(feed, before).Ended? {
        LastLinkMore(feed, before, EndingOf(feed, before).link);
      }
    }
  }

  lemma LastLinkMore(feed: seq<Event>, before: Option<nat>, link: Option<nat>)
    requires feed != [] && forall k :: 0 <= k < |feed| ==> feed[k].Page?
    requires LastLink(feed[1..], if feed[0].link.Some? then feed[0].link else before, link)
    ensures LastLink(feed, before, link)
  {
    var rest := feed[1..];
    if i :| 0 <= i < |rest| && rest[i].link.Some? && rest[i].link == link && forall k :: i < k < |rest| ==> rest[k].link.None? {
      assert feed[i + 1].link == link;
      assert forall k :: i + 1 < k < |feed| ==> feed[k] == rest[k - 1];
    } else {
      assert forall k :: 0 < k < |feed| ==> feed[k] == rest[k - 1];
    }
  }

  function ItemsOf(pages: seq<Event>): seq<seq<Item>> {
    seq(|pages|, i requires 0 <= i < |pages| => if pages[i].Page? then pages[i].items else [])
  }

  /** What is delivered are the items of the pages up to the end or the break, in their order. */
  lemma {:induction false} DeliveredExact(feed: seq<Event>, n: nat)
    requires BreaksAt(feed, n) || (n == |feed| && forall k :: 0 <= k < |feed| ==> feed[k].Page?)
    ensures Delivered(feed) == Flatten(ItemsOf(feed[..n]))
  {
    if n > 0 {
      var rest := feed[1..];
      assert n < |feed| ==> BreaksAt(rest, n - 1);
      DeliveredExact(rest, n - 1);
      assert rest[..n - 1] == feed[..n][1..];
      assert ItemsOf(feed[..n])[1..] == ItemsOf(rest[..n - 1]);
    }
  }

  /** The view a feed asked for at `from` leads to. */
  function Led(s: State, from: Option<nat>, feed: seq<Event>): View {
    ApplyItems(if from.Some? then s.items else map[], Delivered(feed))
  }

  /** The configured folder is the root, or is there. */
  predicate FolderThere(folder: Option<string>, view: View) { folder.None? || folder.value in view }

  /** There is something to save: a first view, or an item with an id. */
  predicate News(from: Option<nat>, feed: seq<Event>) { from.None? || exists i :: i in Delivered(feed) && i.id != "" }

  /**
    A feed is taken over, in memory and at its link, exactly when it ended with a link and the folder is in the
    view it leads to; every other ending has its own outcome and changes nothing.
   */
  ghost predicate TakenOverExactly(s: State, from: Option<nat>, feed: seq<Event>, folder: Option<string>, saves: bool, r: Pair) {
    var ending, view := EndingOf(feed, None), Led(s, from, feed);
    && (r.outcome.FeedFailed? <==> ending.Broken?)
    && (r.outcome.TokenExpired? <==> ending.Expired?)
    && (r.outcome.NoLink? <==> ending == Ended(None))
    && (r.outcome.FolderMissing? <==> ending.Ended? && ending.link.Some? && !FolderThere(folder, view))
    && (ending.Ended? && ending.link.Some? && FolderThere(folder, view) ==>
          && r.state.items == view && r.state.link == ending.link
          && (r.outcome.SaveFailed? <==> !saves && News(from, feed))
          && r.state.disk == (if saves && News(from, feed) then Some(Saved(view, ending.link.value)) else s.disk)
          && (!r.outcome.SaveFailed? ==> r.outcome == Refreshed(Counted(Delivered(feed)), |view|)))
    && (!(ending.Ended? && ending.link.Some? && FolderThere(folder, view)) ==> r.state == s)
  }

  lemma {:induction false} CountedExact(items: seq<Item>)
    ensures Counted(items) == |set k | 0 <= k < |items| && items[k].id != ""|
    ensures Counted(items) > 0 <==> exists i :: i in items && i.id != ""
  {
    if items != [] {
      var n := |items| - 1;
      var init := items[..n];
      CountedExact(init);
      assert items == init + [items[n]];
      var before, all := (set k | 0 <= k < |init| && init[k].id != ""), (set k | 0 <= k < |items| && items[k].id != "");
      assert all == if items[n].id != "" then before + {n} else before;
    }
  }

  lemma TakenOver(s: State, from: Option<nat>, feed: seq<Event>, folder: Option<string>, saves: bool)
    ensures TakenOverExactly(s, from, feed, folder, saves, RefreshedFrom(s, from, feed, folder, saves))
  {
    CountedExact(Delivered(feed));
  }

  /** The same of a whole refresh: of the feed asked for at the held link, or, when that has expired, of a full one. */
  lemma RefreshTakesOver(s: State, feed: seq<Event>, again: seq<Event>, folder: Option<string>, saves: bool)
    ensures var r := RefreshedOnce(s, feed, again, folder, saves);
            if exists i: nat :: BreaksAt(feed, i) && feed[i].TokenInvalid?
            then TakenOverExactly(s, None, again, folder, saves, r)
            else TakenOverExactly(s, s.link, feed, folder, saves, r)
  {
    EndingExact(feed, None);
    TakenOver(s, s.link, feed, folder, saves);
    TakenOver(s, None, again, folder, saves);
  }

  /** A refresh that does not hand over a new position and view changes nothing, in memory or on disk. */
  lemma FailureChangesNothing(s: State, feed: seq<Event>, again: seq<Event>, folder: Option<string>, saves: bool)
    ensures var r := RefreshedOnce(s, feed, again, folder, saves);
            r.outcome.FeedFailed? || r.outcome.TokenExpired? || r.outcome.NoLink? || r.outcome.FolderMissing? ==> r.state == s
  {
  }

  /** The saved view is the one in memory, whenever the last save that was needed worked. */
  lemma SavedViewIsCurrent(s: State, feed: seq<Event>, again: seq<Event>, folder: Option<string>, saves: bool)
    requires s.link.Some? ==> s.disk.Some? && s.disk.value.items == s.items
    ensures var r := RefreshedOnce(s, feed, again, folder, saves);
            r.outcome != SaveFailed && r.state.link.Some? ==> r.state.disk.Some? && r.state.disk.value.items == r.state.items
  {
    if Counted(Delivered(feed)) == 0 {
      NothingCounted(s.items, Delivered(feed));
    }
  }

  datatype Move =
    | Drive(changes: seq<Change>)                                    // the drive changes
    | Refresh(feed: seq<Event>, again: seq<Event>, saves: bool)
    | Restart(lost: bool)                                            // a new process; `lost` when the file cannot be read

  datatype World = World(state: State, log: seq<Change>)

  function Next(w: World, move: Move, folder: Option<string>): World {
    match move
    case Drive(changes) => w.(log := w.log + changes)
    case Refresh(feed, again, saves) => w.(state := RefreshedOnce(w.state, feed, again, folder, saves).state)
    case Restart(lost) => w.(state := Loaded(if lost then None else w.state.disk))
  }

  function After(w: World, moves: seq<Move>, folder: Option<string>): World {
    if moves == [] then w else Next(After(w, moves[..|moves| - 1], folder), moves[|moves| - 1], folder)
  }

  /** Graph answers truthfully at every refresh of the run. */
  ghost predicate Truthful(w: World, moves: seq<Move>, folder: Option<string>) {
    forall k :: 0 <= k < |moves| && moves[k].Refresh? ==>
      var now := After(w, moves[..k], folder);
      Serves(moves[k].feed, now.state.link, now.log) && Serves(moves[k].again, None, now.log)
  }

  lemma LongerLog(s: State, log: seq<Change>, more: seq<Change>)
    requires Replica(s, log)
    ensures Replica(s, log + more)
  {
    if s.link.Some? {
      assert (log + more)[..s.link.value] == log[..s.link.value];
    }
    if s.disk.Some? {
      assert (log + more)[..s.disk.value.link] == log[..s.disk.value.link];
    }
  }

  lemma MoveKeepsReplica(w: World, move: Move, folder: Option<string>)
    requires Replica(w.state, w.log)
    requires move.Refresh? ==> Serves(move.feed, w.state.link, w.log) && Serves(move.again, None, w.log)
    ensures var next := Next(w, move, folder); Replica(next.state, next.log)
  {
    match move {
      case Drive(changes) => LongerLog(w.state, w.log, changes);
      case Refresh(feed, again, saves) =>
        RefreshKeepsReplica(w.state, w.log, w.state.link, feed, folder, saves);
        RefreshKeepsReplica(w.state, w.log, None, again, folder, saves);
      case Restart(lost) =>
    }
  }

  /** In every run memory and disk are replicas at their links. */
  lemma {:induction false} EveryRunKeepsReplica(w: World, moves: seq<Move>, folder: Option<string>)
    requires Replica(w.state, w.log) && Truthful(w, moves, folder)
    ensures var end := After(w, moves, folder); Replica(end.state, end.log)
    decreases |moves|
  {
    if moves != [] {
      var n := |moves| - 1;
      assert forall k :: 0 <= k < n ==> moves[..n][k] == moves[k] && moves[..n][..k] == moves[..k];
      EveryRunKeepsReplica(w, moves[..n], folder);
      MoveKeepsReplica(After(w, moves[..n], folder), moves[n], folder);
    }
  }

  /**
    Two processes that went through any refreshes, failures, lost saves and restarts, and now stand
    at the same position of the same drive, hold the same view.
   */
  lemma Converge(a: World, b: World, movesA: seq<Move>, movesB: seq<Move>, folder: Option<string>)
    requires Replica(a.state, a.log) && Truthful(a, movesA, folder)
    requires Replica(b.state, b.log) && Truthful(b, movesB, folder)
    requires After(a, movesA, folder).log == After(b, movesB, folder).log
    requires After(a, movesA, folder).state.link == After(b, movesB, folder).state.link
    ensures After(a, movesA, folder).state.items == After(b, movesB, folder).state.items
  {
    EveryRunKeepsReplica(a, movesA, folder);
    EveryRunKeepsReplica(b, movesB, folder);
  }
}
