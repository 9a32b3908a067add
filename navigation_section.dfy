/** The navigation-drawer section that lists object-metadata items: which items
    it shows, in which order, under which section key, and the fixed "ATS"
    sub-menu it adds under the person item. The markup itself is reduced to
    the values the component passes to its child components. */
module NavigationSection {
  import opened Sequences

  /** The fields of an object-metadata item the section reads. `createdAt` is
      the creation time as a number (milliseconds since the epoch). */
  datatype ObjectMetadataItem = ObjectMetadataItem(id: string, nameSingular: string, createdAt: int)

  /** The standard objects, in the order the drawer lists them. */
  const OrderedStandardObjects: seq<string> := ["person", "company", "opportunity", "task", "note"]

  /** The key under which the shared store keeps this section's open flag. */
  function SectionKey(isRemote: bool): (key: string)
    ensures isRemote ==> key == "ObjectsRemote"
    ensures !isRemote ==> key == "ObjectsWorkspace"
  {
    "Objects" + (if isRemote then "Remote" else "Workspace")
  }

  /** The remote and the workspace sections never share their open flag. */
  lemma SectionKeysDiffer()
    ensures SectionKey(true) != SectionKey(false)
  {
  }

  /** The filter of the standard part: the name is one of the five standard names. */
  predicate IsStandardObject(item: ObjectMetadataItem): (standard: bool)
    ensures standard <==> item.nameSingular in {"person", "company", "opportunity", "task", "note"}
  {
    item.nameSingular in OrderedStandardObjects
  }

  /** The filter of the custom part: every item the standard filter rejects. */
  predicate IsCustomObject(item: ObjectMetadataItem): (custom: bool)
    ensures custom <==> !IsStandardObject(item)
  {
    item.nameSingular !in OrderedStandardObjects
  }

  /** An item's position in the standard order (-1 for a custom item). */
  function StandardRank(item: ObjectMetadataItem): (rank: int)
    ensures item.nameSingular == "person" ==> rank == 0
    ensures item.nameSingular == "company" ==> rank == 1
    ensures item.nameSingular == "opportunity" ==> rank == 2
    ensures item.nameSingular == "task" ==> rank == 3
    ensures item.nameSingular == "note" ==> rank == 4
    ensures rank == -1 <==> IsCustomObject(item)
  {
    IndexOf(OrderedStandardObjects, item.nameSingular)
  }

  /** The comparator of the standard sort. It falls back to the host's
      locale-dependent string comparison, given as `localeCompare`, when one
      of the names is not a standard one. */
  function StandardComparator(localeCompare: (string, string) -> int, a: ObjectMetadataItem, b: ObjectMetadataItem): (r: int)
    ensures IsStandardObject(a) && IsStandardObject(b) ==> r == StandardRank(a) - StandardRank(b)
    ensures !(IsStandardObject(a) && IsStandardObject(b)) ==> r == localeCompare(a.nameSingular, b.nameSingular)
  {
    var indexA := IndexOf(OrderedStandardObjects, a.nameSingular);
    var indexB := IndexOf(OrderedStandardObjects, b.nameSingular);
    if indexA == -1 || indexB == -1 then localeCompare(a.nameSingular, b.nameSingular)
    else indexA - indexB
  }

  /** The comparator of the custom sort: a later creation time goes first.
      It never reports a tie. */
  function CustomComparator(a: ObjectMetadataItem, b: ObjectMetadataItem): (r: int)
    ensures r != 0
    ensures r < 0 <==> a.createdAt >= b.createdAt
  {
    if a.createdAt < b.createdAt then 1 else -1
  }

  /** Between two standard items the comparator never takes the
      `localeCompare` branch: it is the difference of their ranks. */
  lemma StandardComparatorByRank(localeCompare: (string, string) -> int, a: ObjectMetadataItem, b: ObjectMetadataItem)
    requires IsStandardObject(a) && IsStandardObject(b)
    ensures StandardComparator(localeCompare, a, b) == StandardRank(a) - StandardRank(b)
  {
  }

  function CreatedAtDescending(item: ObjectMetadataItem): int
  {
    -item.createdAt
  }

  /** `createdAt` does not increase along `s`: newest first. */
  ghost predicate NewestFirst(s: seq<ObjectMetadataItem>)
  {
    forall i, j :: 0 <= i < j < |s| ==> s[i].createdAt >= s[j].createdAt
  }

  /** The standard items of `items`, sorted by the standard order. */
  function SortedStandardItems(items: seq<ObjectMetadataItem>, localeCompare: (string, string) -> int): (r: seq<ObjectMetadataItem>)
    ensures multiset(r) == multiset(Filter(items, IsStandardObject))
    ensures forall x :: x in r <==> x in items && IsStandardObject(x)
    ensures Ascending(r, StandardRank)
  {
    var standard := Filter(items, IsStandardObject);
    var cmp := (a, b) => StandardComparator(localeCompare, a, b);
    SortByAscending(standard, cmp, StandardRank);
    SortBy(standard, cmp)
  }

  /** The custom items of `items`, newest first. */
  function SortedCustomItems(items: seq<ObjectMetadataItem>): (r: seq<ObjectMetadataItem>)
    ensures multiset(r) == multiset(Filter(items, IsCustomObject))
    ensures forall x :: x in r <==> x in items && IsCustomObject(x)
    ensures NewestFirst(r)
  {
    var custom := Filter(items, IsCustomObject);
    SortByAscending(custom, CustomComparator, CreatedAtDescending);
    var r := SortBy(custom, CustomComparator);
    assert forall i, j :: 0 <= i < j < |r| ==> CreatedAtDescending(r[i]) <= CreatedAtDescending(r[j]);
    r
  }

  /** The order the drawer lists items in: every standard item before every
      custom item, standard items by rank, custom items newest first. */
  predicate DisplayOrder(a: ObjectMetadataItem, b: ObjectMetadataItem)
  {
    (IsStandardObject(b) ==> IsStandardObject(a)) &&
    (IsStandardObject(a) && IsStandardObject(b) ==> StandardRank(a) <= StandardRank(b)) &&
    (IsCustomObject(a) && IsCustomObject(b) ==> a.createdAt >= b.createdAt)
  }

  /** The sorted standard items followed by the sorted custom items: a
      permutation of `items` in display order. */
  function NavigationItems(items: seq<ObjectMetadataItem>, localeCompare: (string, string) -> int): (r: seq<ObjectMetadataItem>)
    ensures multiset(r) == multiset(items)
    ensures Pairwise(r, DisplayOrder)
  {
    var standard := SortedStandardItems(items, localeCompare);
    var custom := SortedCustomItems(items);
    FilterComplement(items, IsStandardObject, IsCustomObject);
    var r := standard + custom;
    assert forall i, j :: 0 <= i < j < |r| ==> DisplayOrder(r[i], r[j]) by {
      forall i, j | 0 <= i < j < |r| ensures DisplayOrder(r[i], r[j]) {
        if j < |standard| {
          assert r[i] == standard[i] && r[j] == standard[j];
          assert r[i] in standard && r[j] in standard;
        } else if i >= |standard| {
          assert r[i] == custom[i - |standard|] && r[j] == custom[j - |standard|];
          assert r[i] in custom && r[j] in custom;
        } else {
          assert r[i] == standard[i] && r[j] == custom[j - |standard|];
          assert r[i] in standard && r[j] in custom;
        }
      }
    }
    r
  }

  /** The items the section shows: those of the ordered list whose object the
      user may read, as reported by `canRead` on the item's id. */
  function NavigationItemsWithReadPermission(
    items: seq<ObjectMetadataItem>, canRead: string -> bool, localeCompare: (string, string) -> int
  ): (r: seq<ObjectMetadataItem>)
    ensures forall x :: multiset(r)[x] == if canRead(x.id) then multiset(items)[x] else 0
    ensures forall x :: x in r ==> x in items && canRead(x.id)
    ensures SubsequenceOf(r, NavigationItems(items, localeCompare))
    ensures Pairwise(r, DisplayOrder)
  {
    var ordered := NavigationItems(items, localeCompare);
    var r := Filter(ordered, (item: ObjectMetadataItem) => canRead(item.id));
    SubsequencePairwise(r, ordered, DisplayOrder);
    r
  }

  /** The standard and custom parts split the input: an item lands in the
      standard part exactly when its singular name is one of the five
      standard names, in the custom part otherwise, and the two parts
      together are a permutation of the input. */
  lemma PartitionIsPermutation(items: seq<ObjectMetadataItem>, localeCompare: (string, string) -> int)
    ensures forall x :: IsStandardObject(x) <==>
      x.nameSingular in {"person", "company", "opportunity", "task", "note"}
    ensures forall x :: IsCustomObject(x) <==> !IsStandardObject(x)
    ensures multiset(SortedStandardItems(items, localeCompare)) + multiset(SortedCustomItems(items))
      == multiset(items)
  {
    FilterComplement(items, IsStandardObject, IsCustomObject);
  }

  /** The `localeCompare` fallback of the standard comparator is dead code:
      the standard items come out in the same order whatever it answers. */
  lemma StandardOrderIgnoresLocaleCompare(
    items: seq<ObjectMetadataItem>, localeCompare1: (string, string) -> int, localeCompare2: (string, string) -> int
  )
    ensures SortedStandardItems(items, localeCompare1) == SortedStandardItems(items, localeCompare2)
  {
    var standard := Filter(items, IsStandardObject);
    var cmp1 := (a, b) => StandardComparator(localeCompare1, a, b);
    var cmp2 := (a, b) => StandardComparator(localeCompare2, a, b);
    forall x, y | x in standard && y in standard ensures cmp1(x, y) == cmp2(x, y) {
      StandardComparatorByRank(localeCompare1, x, y);
      StandardComparatorByRank(localeCompare2, x, y);
    }
    SortByCongruent(standard, cmp1, cmp2);
  }

  /** The arguments the section passes to the sub-item adornment helper. */
  datatype SubItemState = SubItemState(index: int, arrayLength: int, selectedIndex: int)

  datatype Option<T> = None | Some(value: T)

  /** One row of the ATS sub-menu: its label, its route (none for the
      "Candidates" row, which only has a click handler), its indentation and
      its adornment arguments. */
  datatype SubItem = SubItem(labelText: string, to: Option<string>, indentationLevel: int, state: SubItemState)

  /** The ATS sub-menu: whether it is expanded and its rows. */
  datatype AtsMenu = AtsMenu(isExpanded: bool, subItems: seq<SubItem>)

  /** One listed item, with the ATS sub-menu when the component adds one. */
  datatype DrawerEntry = DrawerEntry(item: ObjectMetadataItem, ats: Option<AtsMenu>)

  /** What the component renders: nothing, or the section with its title, the
      key of its open flag and its entries. */
  datatype Rendered =
    | RenderedNothing
    | RenderedSection(sectionKey: string, title: string, entries: seq<DrawerEntry>)

  function AtsSubItem(labelText: string, to: Option<string>, index: int): SubItem
  {
    SubItem(labelText, to, 2, SubItemState(index, 7, -1))
  }

  /** The seven ATS rows: numbered 0 to 6 in order, each told the menu has
      seven rows and that none of them is selected. */
  function AtsSubItems(): (rows: seq<SubItem>)
    ensures |rows| == 7
    ensures forall k :: 0 <= k < 7 ==> rows[k].state == SubItemState(k, 7, -1)
    ensures forall k :: 0 <= k < 7 ==> rows[k].state.selectedIndex != rows[k].state.index
    ensures forall k :: 0 <= k < 7 ==> rows[k].indentationLevel == 2
    ensures forall k :: 0 <= k < 7 ==> (rows[k].to.None? <==> rows[k].labelText == "Candidates")
    ensures [rows[0].labelText, rows[1].labelText, rows[2].labelText, rows[3].labelText,
             rows[4].labelText, rows[5].labelText, rows[6].labelText]
         == ["Overview", "Job posting", "Assessment", "Interview Plan", "Recruiter", "Candidates", "Reporting"]
    ensures [rows[0].to, rows[1].to, rows[2].to, rows[3].to, rows[4].to, rows[5].to, rows[6].to]
         == [Some("/ats/overview"), Some("/ats/job-posting"), Some("/ats/assessment"),
             Some("/ats/interview-plan"), Some("/ats/recruiter"), None, Some("/ats/reporting")]
  {
    [
      AtsSubItem("Overview", Some("/ats/overview"), 0),
      AtsSubItem("Job posting", Some("/ats/job-posting"), 1),
      AtsSubItem("Assessment", Some("/ats/assessment"), 2),
      AtsSubItem("Interview Plan", Some("/ats/interview-plan"), 3),
      AtsSubItem("Recruiter", Some("/ats/recruiter"), 4),
      AtsSubItem("Candidates", None, 5),
      AtsSubItem("Reporting", Some("/ats/reporting"), 6)
    ]
  }

  /** The entry for one shown item: the person item carries the ATS menu,
      expanded exactly when `isAtsOpen` holds. */
  function EntryFor(item: ObjectMetadataItem, isAtsOpen: bool): (e: DrawerEntry)
    ensures e.item == item
    ensures e.ats.Some? <==> item.nameSingular == "person"
    ensures e.ats.Some? ==> e.ats.value.isExpanded == isAtsOpen && |e.ats.value.subItems| == 7
  {
    DrawerEntry(item, if item.nameSingular == "person" then Some(AtsMenu(isAtsOpen, AtsSubItems())) else None)
  }

  /** One entry per shown item, in the same order. */
  function EntriesFor(shown: seq<ObjectMetadataItem>, isAtsOpen: bool): (entries: seq<DrawerEntry>)
    ensures |entries| == |shown|
    ensures forall i :: 0 <= i < |shown| ==> entries[i] == EntryFor(shown[i], isAtsOpen)
  {
    seq(|shown|, i requires 0 <= i < |shown| => EntryFor(shown[i], isAtsOpen))
  }

  /** The whole section. Nothing at all for an empty item list; otherwise the
      title, and the entries of the permitted items in display order only
      while the section is open. */
  function Render(
    sectionTitle: string, isRemote: bool, items: seq<ObjectMetadataItem>,
    isNavigationSectionOpen: bool, canRead: string -> bool,
    localeCompare: (string, string) -> int, isAtsOpen: bool
  ): (out: Rendered)
    ensures out.RenderedNothing? <==> |items| == 0
    ensures out.RenderedSection? ==> out.title == sectionTitle && out.sectionKey == SectionKey(isRemote)
    ensures out.RenderedSection? && !isNavigationSectionOpen ==> out.entries == []
    ensures out.RenderedSection? && isNavigationSectionOpen ==>
      out.entries == EntriesFor(NavigationItemsWithReadPermission(items, canRead, localeCompare), isAtsOpen)
    ensures out.RenderedSection? ==> forall i :: 0 <= i < |out.entries| ==>
      var e := out.entries[i];
      canRead(e.item.id) && e.item in items &&
      (e.ats.Some? <==> e.item.nameSingular == "person") &&
      (e.ats.Some? ==> e.ats.value == AtsMenu(isAtsOpen, AtsSubItems()))
  {
    if |items| == 0 then RenderedNothing
    else
      var shown := NavigationItemsWithReadPermission(items, canRead, localeCompare);
      var entries := if isNavigationSectionOpen then EntriesFor(shown, isAtsOpen) else [];
      RenderedSection(SectionKey(isRemote), sectionTitle, entries)
  }

  /** The component's local state: the ATS sub-menu's expanded flag. */
  class AtsState {
    var isAtsOpen: bool

    /** The ATS sub-menu starts collapsed. */
    constructor ()
      ensures !isAtsOpen
    {
      isAtsOpen := false;
    }

    /** A click on the ATS item flips the flag. */
    method ClickAts()
      modifies this
      ensures isAtsOpen == !old(isAtsOpen)
    {
      isAtsOpen := !isAtsOpen;
    }
  }
}
