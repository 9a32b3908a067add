# Navigation drawer objects section and interview plan page, modelled in Dafny

This project models the list logic of two view components of the Twenty CRM
front end.

- **The objects section of the navigation drawer.** It takes the
  object-metadata items and splits them into standard objects (person,
  company, opportunity, task, note) and custom objects. It sorts the
  standard objects by that fixed order and the custom objects newest first.
  It lists standard before custom and keeps only the items the user may
  read. It keeps its open flag in a shared store under the key
  `ObjectsRemote` or `ObjectsWorkspace`. It renders nothing for an empty
  item list and no entries while closed. Under the person item it adds a
  fixed seven-row "ATS" sub-menu, expanded by a local flag that each click
  on the ATS item flips.
- **The interview plan onboarding page.** It holds a list of stages seeded
  with two stages. The trash button of a stage drops every stage with that
  id. The divider under a stage's header takes its colour and height from
  the stage name.

Files:

- `sequences.dfy` (module `Sequences`): the JavaScript array operations the
  components use, as functions. These are `filter`, `indexOf` and a
  comparator-driven `sort`, modelled as a stable insertion sort. The module
  also holds the facts the component properties rest on: membership and
  multiplicity under filtering, order preservation (subsequences), sortedness
  under a comparator that agrees with a key, and independence of the sort
  from comparator values it never consults.
- `navigation_section.dfy` (module `NavigationSection`): the item ordering
  and permission filter, the section key, the rendered structure
  (`Render`), the ATS sub-menu and the ATS expand flag (class `AtsState`).
- `interview_plan.dfy` (module `InterviewPlan`): the `Stage` record, the
  seeded list, deletion by id (class `InterviewPlanPage`) and the divider
  style.

Inputs the components receive from code outside this model are parameters:

- The permission lookup is `canRead: string -> bool` on the item id.
- The section's open flag is the boolean `isNavigationSectionOpen`.
- The host's `localeCompare` is `localeCompare: (string, string) -> int`.

`StandardOrderIgnoresLocaleCompare` proves that the standard sort's
`localeCompare` branch never decides anything. Both indices are found,
because the filter before the sort only lets standard names through.

Two facts about the code shape the model:

- The `+` and pencil buttons (InterviewPlan.tsx:209, :233) have no
  handlers, so the page has no add or edit operation.
- The ATS rows get the fixed `selectedIndex: -1`, so the current route
  never selects a row. Only the local flag expands the ATS menu.

## Model

| member | source | states |
|---|---|---|
| `NavigationSection.SectionKey` | packages/twenty-front/src/modules/object-metadata/components/NavigationDrawerSectionForObjectMetadataItems.tsx:46-47 | the section key is `ObjectsRemote` for a remote section and `ObjectsWorkspace` otherwise |
| `NavigationSection.SectionKeysDiffer` | packages/twenty-front/src/modules/object-metadata/components/NavigationDrawerSectionForObjectMetadataItems.tsx:47 | the remote and workspace sections use different keys, so they never share an open flag |
| `Sequences.IndexOf` | packages/twenty-front/src/modules/object-metadata/components/NavigationDrawerSectionForObjectMetadataItems.tsx:57-58 | `indexOf` gives -1 exactly for an absent value; otherwise it gives the first position holding the value |
| `NavigationSection.StandardRank` | packages/twenty-front/src/modules/object-metadata/components/NavigationDrawerSectionForObjectMetadataItems.tsx:27-33 | person, company, opportunity, task and note rank 0 to 4; the rank is -1 exactly for a custom item |
| `NavigationSection.IsStandardObject` | packages/twenty-front/src/modules/object-metadata/components/NavigationDrawerSectionForObjectMetadataItems.tsx:54-55 | an item passes the standard filter exactly when its singular name is person, company, opportunity, task or note |
| `NavigationSection.IsCustomObject` | packages/twenty-front/src/modules/object-metadata/components/NavigationDrawerSectionForObjectMetadataItems.tsx:66-67 | an item passes the custom filter exactly when the standard filter rejects it |
| `NavigationSection.StandardComparator` | packages/twenty-front/src/modules/object-metadata/components/NavigationDrawerSectionForObjectMetadataItems.tsx:56-64 | between two standard items the comparator is the difference of their ranks; otherwise it is what `localeCompare` answers for the two names |
| `NavigationSection.CustomComparator` | packages/twenty-front/src/modules/object-metadata/components/NavigationDrawerSectionForObjectMetadataItems.tsx:68-70 | the custom comparator never reports a tie, and puts `a` first (negative) exactly when `a` was created no earlier than `b` |
| `NavigationSection.StandardComparatorByRank` | packages/twenty-front/src/modules/object-metadata/components/NavigationDrawerSectionForObjectMetadataItems.tsx:56-64 | between two standard items the comparator is the difference of their ranks, whatever `localeCompare` would answer |
| `Sequences.Filter` | packages/twenty-front/src/modules/object-metadata/components/NavigationDrawerSectionForObjectMetadataItems.tsx:77-83 | `filter` keeps every occurrence of each value that passes the predicate and no other value, in order (an order-preserving subsequence) |
| `Sequences.FilterComplement` | packages/twenty-front/src/modules/object-metadata/components/NavigationDrawerSectionForObjectMetadataItems.tsx:54-67 | the parts kept by a predicate and by its negation together form a permutation of the input |
| `Sequences.InsertBy` | packages/twenty-front/src/modules/object-metadata/components/NavigationDrawerSectionForObjectMetadataItems.tsx:56-70 | one insertion step of the sort adds exactly the inserted element to the multiset |
| `Sequences.SortBy` | packages/twenty-front/src/modules/object-metadata/components/NavigationDrawerSectionForObjectMetadataItems.tsx:56-70 | `sort` returns a permutation of its input |
| `Sequences.SortByAscending` | packages/twenty-front/src/modules/object-metadata/components/NavigationDrawerSectionForObjectMetadataItems.tsx:56-70 | when the comparator puts an element first exactly when its key is not larger, the sorted result is ascending by that key |
| `Sequences.SortByCongruent` | packages/twenty-front/src/modules/object-metadata/components/NavigationDrawerSectionForObjectMetadataItems.tsx:56-64 | two comparators that agree on the sorted elements give the same sorted result |
| `NavigationSection.SortedStandardItems` | packages/twenty-front/src/modules/object-metadata/components/NavigationDrawerSectionForObjectMetadataItems.tsx:54-64 | the standard part is a permutation of the input's standard items and has non-decreasing rank (person, company, opportunity, task, note) |
| `NavigationSection.SortedCustomItems` | packages/twenty-front/src/modules/object-metadata/components/NavigationDrawerSectionForObjectMetadataItems.tsx:66-70 | the custom part is a permutation of the input's non-standard items, newest first (non-increasing `createdAt`) |
| `NavigationSection.PartitionIsPermutation` | packages/twenty-front/src/modules/object-metadata/components/NavigationDrawerSectionForObjectMetadataItems.tsx:54-70 | an item is standard exactly when its singular name is one of the five standard names, custom otherwise; the two sorted parts together are a permutation of the input |
| `NavigationSection.StandardOrderIgnoresLocaleCompare` | packages/twenty-front/src/modules/object-metadata/components/NavigationDrawerSectionForObjectMetadataItems.tsx:60-62 | the `localeCompare` fallback is dead: the sorted standard items are the same for every `localeCompare` |
| `NavigationSection.NavigationItems` | packages/twenty-front/src/modules/object-metadata/components/NavigationDrawerSectionForObjectMetadataItems.tsx:72-75 | the combined list is a permutation of the input; every standard item precedes every custom item; standard items are by rank and custom items newest first |
| `NavigationSection.NavigationItemsWithReadPermission` | packages/twenty-front/src/modules/object-metadata/components/NavigationDrawerSectionForObjectMetadataItems.tsx:77-83 | the shown list holds each readable input item as often as the input does and no unreadable item; it is an order-preserving subsequence of the combined list, so it keeps the display order |
| `Sequences.SubsequencePairwise` | packages/twenty-front/src/modules/object-metadata/components/NavigationDrawerSectionForObjectMetadataItems.tsx:77-83 | an ordering that holds between earlier and later elements of a list still holds in any subsequence of it |
| `NavigationSection.AtsSubItems` | packages/twenty-front/src/modules/object-metadata/components/NavigationDrawerSectionForObjectMetadataItems.tsx:117-201 | the ATS menu has seven rows, labelled Overview, Job posting, Assessment, Interview Plan, Recruiter, Candidates and Reporting in that order; their routes are `/ats/overview`, `/ats/job-posting`, `/ats/assessment`, `/ats/interview-plan`, `/ats/recruiter`, none for Candidates, and `/ats/reporting`; row k gets index k, array length 7, selected index -1 (no row is selected) and indentation 2 |
| `NavigationSection.EntryFor` | packages/twenty-front/src/modules/object-metadata/components/NavigationDrawerSectionForObjectMetadataItems.tsx:98-112 | an item gets the ATS menu exactly when its singular name is `person`; that menu has seven rows and is expanded exactly when `isAtsOpen` holds |
| `NavigationSection.EntriesFor` | packages/twenty-front/src/modules/object-metadata/components/NavigationDrawerSectionForObjectMetadataItems.tsx:96-97 | the rendered list has one entry per shown item, the entry at each position built from the item at the same position |
| `NavigationSection.Render` | packages/twenty-front/src/modules/object-metadata/components/NavigationDrawerSectionForObjectMetadataItems.tsx:85-209 | nothing is rendered exactly when the input is empty; a rendered section carries the title and section key; a closed section has no entries; an open one has one entry per shown item, in order; every entry is a readable input item, with the ATS menu (expanded as `isAtsOpen`) exactly under `person` |
| `NavigationSection.AtsState.constructor` | packages/twenty-front/src/modules/object-metadata/components/NavigationDrawerSectionForObjectMetadataItems.tsx:51 | the ATS flag starts false |
| `NavigationSection.AtsState.ClickAts` | packages/twenty-front/src/modules/object-metadata/components/NavigationDrawerSectionForObjectMetadataItems.tsx:105-109 | a click on the ATS item negates the flag |
| `InterviewPlan.InitialStages` | packages/twenty-front/src/pages/onboarding/InterviewPlan.tsx:174-188 | the seeded list has exactly two stages, "Initial Call" with id 1 and "Assessment" with id 2, so its ids are distinct |
| `InterviewPlan.InterviewPlanPage.constructor` | packages/twenty-front/src/pages/onboarding/InterviewPlan.tsx:174-188 | the page starts with the seeded stages, and its ids are distinct |
| `InterviewPlan.InterviewPlanPage.DeleteStage` | packages/twenty-front/src/pages/onboarding/InterviewPlan.tsx:190-192 | after deleting `id`, the list is the old list without the stages carrying `id`: none with `id` remains, every other stage is kept, and ids stay distinct; a present id shrinks the list by exactly one, and an absent id leaves it unchanged |
| `InterviewPlan.WithoutStage` | packages/twenty-front/src/pages/onboarding/InterviewPlan.tsx:191 | a stage survives deletion exactly when it was in the list and its id differs; the survivors keep their relative order |
| `InterviewPlan.WithoutStageLength` | packages/twenty-front/src/pages/onboarding/InterviewPlan.tsx:191 | deletion shrinks the list by the number of stages carrying the id |
| `InterviewPlan.CountIdDistinct` | packages/twenty-front/src/pages/onboarding/InterviewPlan.tsx:191 | in a list with distinct ids, an id is carried by at most one stage |
| `InterviewPlan.WithoutPresentStage` | packages/twenty-front/src/pages/onboarding/InterviewPlan.tsx:191 | with distinct ids, deleting a present id shrinks the list by exactly one |
| `InterviewPlan.WithoutAbsentStage` | packages/twenty-front/src/pages/onboarding/InterviewPlan.tsx:191 | deleting an id no stage carries leaves the list unchanged |
| `InterviewPlan.WithoutStageIdempotent` | packages/twenty-front/src/pages/onboarding/InterviewPlan.tsx:191 | deleting the same id twice equals deleting it once |
| `InterviewPlan.WithoutStageKeepsDistinctIds` | packages/twenty-front/src/pages/onboarding/InterviewPlan.tsx:190-192 | deletion keeps the ids distinct |
| `InterviewPlan.StageDivider` | packages/twenty-front/src/pages/onboarding/InterviewPlan.tsx:243-255 | the divider is `#b3cbddff`/2px for "Initial Call", `#e8ebcaff`/2px for "Assessment" and `#ccc`/1px for any other name |
| `InterviewPlan.DividerThickExactlyWhenColoured` | packages/twenty-front/src/pages/onboarding/InterviewPlan.tsx:243-255 | the separately written height and colour conditions agree: the divider is 2px exactly when its colour is not `#ccc`, the colour for stages other than "Initial Call" and "Assessment" |

## Left out

- Markup, styled components, CSS, icons and the animated containers are presentational. The model keeps only the values handed to child components: entry items, ATS rows, the expanded flag, the title and the key.
- The shared section store (`useNavigationSection`, `useRecoilValue`) is not part of this model. The open flag is the input `isNavigationSectionOpen`, and toggling it from the title's click handler is not modelled. Only the key under which the store is asked is modelled.
- `useObjectPermissions` and `getObjectPermissionsForObject` are not part of this model. Their combined answer for an item id is the parameter `canRead`.
- `getNavigationSubItemLeftAdornment` is not part of this model. Only the arguments passed to it are recorded.
- `new Date(...)` parsing of `createdAt`, including invalid dates, is left out. `createdAt` is an integer timestamp.
- `localeCompare` is locale-dependent host behaviour. It is a parameter, and the model proves that the result never depends on it.
- `isCandidatesOpen` is flipped by the "Candidates" row but never read, so nothing observable depends on it. That row is modelled without a route.
- Adding, editing and drag-and-drop reordering of stages are not implemented in the page's code: the buttons have no handlers. The page-level copy mentions drag-and-drop, but no code does it.
- Stage ids are JavaScript numbers. The model uses integers, so NaN and fractional ids are left out.
- `NavigationSection.SortedCustomItems`: the contract promises only newest-first order and a permutation. The custom comparator never answers 0, so for equal timestamps the engine's order is unspecified. The model's insertion sort keeps input order there, but no contract states it.
- `Sequences.SortBy`: the contract states permutation, and with `SortByAscending` sortedness, but not stability. ECMAScript's sort is stable, and the model's insertion sort is too, but nothing here proves it.
