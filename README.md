# Care Companion: list-toggle engine and page navigation

A Dafny model of the state logic of a phone-style companion app for cognitive care
(a React/TypeScript single-page app). The app shows six pages: home, medication,
schedule, memory games, contacts and photos. Four of them keep an ordered list of
records, each with a numeric `id` and one boolean flag. The flags are `taken` for
medications, `completed` for schedule entries and exercises, and `isFavorite` for
photos. A button toggles the flag by id, and the page's counters are recomputed
from the list on every render. The app shell holds `currentPage`, which selects
the one page component that is mounted.

Modules, one per source file, plus two shared ones:

- `ListOps` (`list_ops.dfy`): the JavaScript `map`, `filter` and `find` on
  sequences, with their contracts and lemmas (order, membership, length as a count
  of positions, partition by complementary predicates).
- `Toggleable` (`toggleable.dfy`): the generic record `Item<D>` (id, unchanging
  fields `D`, flag) and the toggle `Toggled(s, id)`. This is the `map` callback
  `r.id === id ? { ...r, flag: !r.flag } : r` that all four stateful pages share.
  The module also holds the flagged count, the first unflagged position, and the
  lemmas about them.
- `MedicationPage`, `SchedulePage`, `MemoryPage`, `PhotosPage`: each page's record
  fields and seed list, its derived values as pure functions, and a class for its
  React state. The class's toggle method replaces the list field with
  `Toggled(old list, id)`.
- `ContactsPage`, `HomePage`: pure. They hold the constant contact list and its two
  groups, and the greeting, quick actions and emergency button.
- `Pages` and `App`: the closed page union, and the shell. The class `App.Shell`
  holds `currentPage` and the mounted page's state object. Navigating to another
  page mounts a fresh component whose list is back at its seed. Staying on the same
  page keeps it.

The code's own behaviour, which the model keeps:

- The code checks no seed for duplicate ids.
- It raises no error for a toggle of an unknown id; that toggle changes nothing.
- It cannot navigate to an unknown page, because `Page` is a closed union.
- It does not keep a page's toggles after navigating away and back. The page
  component is unmounted, and its `useState` starts again from the seed.

## Model

| member | source | states |
|---|---|---|
| `ListOps.Map` | src/components/MedicationPage.tsx:52-54 | `map` keeps the length, and element i of the result is the callback applied to element i |
| `ListOps.Filter` | src/components/MedicationPage.tsx:57 | `filter` is never longer than its input, and keeps only elements that are in the input and satisfy the predicate |
| `ListOps.FilterMembership` | src/components/ContactsPage.tsx:65 | an element is in the filtered list iff it is in the input and satisfies the predicate |
| `ListOps.FilterConcat` | src/components/PhotosPage.tsx:85 | filtering a concatenation is the concatenation of the filtered parts, so `filter` keeps list order |
| `ListOps.FilterLength` | src/components/SchedulePage.tsx:60 | `filter(...).length` equals the number of positions whose element satisfies the predicate |
| `ListOps.FilterPartition` | src/components/ContactsPage.tsx:65-66 | two complementary filters split the list: lengths add up to the list length and multisets add up to the list's multiset |
| `ListOps.FilterPrefix` | src/components/ContactsPage.tsx:65 | a list whose first k elements satisfy the predicate and whose others do not is filtered to its first k elements |
| `ListOps.FindIndex` | src/components/SchedulePage.tsx:61 | `find` returns the first position whose element satisfies the predicate (all earlier ones fail it), and nothing exactly when no element satisfies it |
| `Toggleable.Toggled` | src/components/MedicationPage.tsx:51-55 | a toggle keeps the list length |
| `Toggleable.CountFlagged` | src/components/SchedulePage.tsx:60 | `filter(r => r.flag).length` (`takenCount`, both `completedCount`s) is the number of positions holding a flagged record, and never exceeds the list length |
| `Toggleable.ToggledAt` | src/components/MedicationPage.tsx:52-54 | at every position, a record with the toggled id has its flag flipped and keeps its id and other fields; any other record is returned unchanged |
| `Toggleable.ToggledTwice` | src/components/MedicationPage.tsx:53 | toggling the same id twice restores the original list |
| `Toggleable.ToggledAbsent` | src/components/MedicationPage.tsx:53 | toggling an id no record has leaves the list unchanged |
| `Toggleable.ToggledKeepsIds` | src/components/SchedulePage.tsx:30-34 | a toggle keeps the sequence of ids, so unique ids stay unique |
| `Toggleable.FlaggedPositionsToggled` | src/components/PhotosPage.tsx:76-85 | with unique ids, toggling the record at k adds k to the flagged positions when it was unflagged and removes it when it was flagged, and changes no other position |
| `Toggleable.FlaggedSplit` | src/components/MemoryPage.tsx:82 | the flagged count plus the number of unflagged records is the list length |
| `Toggleable.AllFlaggedIffFull` | src/components/SchedulePage.tsx:60-61 | the flagged count equals the list length iff every record is flagged |
| `Toggleable.CountToggled` | src/components/MemoryPage.tsx:67-71 | with unique ids, toggling the record at k lowers the flagged count by one if it was flagged and raises it by one otherwise |
| `Toggleable.DoneAdvances` | src/components/SchedulePage.tsx:61 | with unique ids, after toggling the first unflagged record, the first unflagged record is the first one strictly after it, and there is none exactly when all later records are flagged |
| `Pages.PageIdInjective` | src/App.tsx:10 | distinct pages have distinct string tags |
| `MedicationPage.TakenCount` | src/components/MedicationPage.tsx:57-58 | `takenCount` is at most `totalCount` |
| `MedicationPage.TotalCount` | src/components/MedicationPage.tsx:58 | `totalCount` is the number of doses taken plus the number still to take |
| `MedicationPage.MedicationList.constructor` | src/components/MedicationPage.tsx:16-49 | the page starts from the four seed doses |
| `MedicationPage.MedicationList.ToggleMedication` | src/components/MedicationPage.tsx:51-55 | the new `medications` list is the old one toggled at `id` |
| `MedicationPage.ToggleMovesTakenCount` | src/components/MedicationPage.tsx:53-58 | with unique ids, toggling a dose moves `takenCount` by exactly one (up when it was not taken, down when it was), and `totalCount` stays the same |
| `MedicationPage.SeedScenario` | src/components/MedicationPage.tsx:16-58 | the seed reads 2/4, and after toggling id 3 it reads 3/4 |
| `SchedulePage.NextTask` | src/components/SchedulePage.tsx:61 | `nextTask` is an incomplete entry of the list with every earlier entry completed, and it is absent exactly when every entry is completed |
| `SchedulePage.CompletedCount` | src/components/SchedulePage.tsx:60-61 | `completedCount` reaches the number of entries exactly when there is no next task |
| `SchedulePage.ItemButtons` | src/components/SchedulePage.tsx:129-146 | an entry shows one button: "Mark Complete" iff it is incomplete and "Undo" iff it is completed, and both toggle the entry's id |
| `SchedulePage.DaySchedule.constructor` | src/components/SchedulePage.tsx:15-28 | the page starts from the twelve seed entries |
| `SchedulePage.DaySchedule.ToggleComplete` | src/components/SchedulePage.tsx:30-34 | the new `schedule` list is the old one toggled at `id` |
| `SchedulePage.DaySchedule.PressDone` | src/components/SchedulePage.tsx:80-89 | "Done" is available only while a next task exists, and it toggles that task's id |
| `SchedulePage.DoneAdvancesNextTask` | src/components/SchedulePage.tsx:61-89 | with unique ids, after "Done" the old next task is completed, and the new next task is the first incomplete entry strictly after it, or absent exactly when all later entries are completed |
| `SchedulePage.SeedScenario` | src/components/SchedulePage.tsx:15-61 | the seed's next task is id 5 ("12:00 PM", "Lunch") with 4 completed; after toggling it, the next task is id 6 ("1:00 PM", "Rest time") with 5 completed |
| `MemoryPage.CompletedCount` | src/components/MemoryPage.tsx:82 | `completedCount` plus the number of exercises still offering "Start Game" is the number of exercises |
| `MemoryPage.GoalMet` | src/components/MemoryPage.tsx:126 | the "Goal achieved!" line is shown iff at least three positions hold a completed exercise |
| `MemoryPage.TotalPoints` | src/components/MemoryPage.tsx:83 | `totalPoints` is a multiple of 10, equals 10 × `completedCount`, and is at most 10 × the number of exercises |
| `MemoryPage.GoalProgress` | src/components/MemoryPage.tsx:123 | the goal bar width is between 0 and 100, is exactly 100 iff at least 3 games are done, and below that is `completed × 100 / 3` |
| `MemoryPage.GoalMetIffFullBar` | src/components/MemoryPage.tsx:123-126 | the "Goal achieved" line (`completedCount >= 3`) is shown iff the bar is full |
| `MemoryPage.ExerciseButtons` | src/components/MemoryPage.tsx:162-173 | "Start Game" is offered iff the exercise is not completed; the last button reads "Undo" or "Mark Complete" according to the flag and toggles the exercise's id |
| `MemoryPage.ExerciseList.constructor` | src/components/MemoryPage.tsx:16-65 | the page starts from the six seed exercises |
| `MemoryPage.ExerciseList.ToggleComplete` | src/components/MemoryPage.tsx:67-71 | the new `exercises` list is the old one toggled at `id` |
| `MemoryPage.SeedScenario` | src/components/MemoryPage.tsx:16-126 | the seed has 1 done and the goal unmet; after completing exercises 2 and 3 there are 3 done, 30 points, and the goal is met |
| `PhotosPage.FavoritePhotos` | src/components/PhotosPage.tsx:85 | `favoritePhotos` holds exactly the favourite photos of the list, and its length is the number of favourite positions, at most `photos.length` |
| `PhotosPage.FavoritesInOrder` | src/components/PhotosPage.tsx:85 | `favoritePhotos` keeps list order: the favourites of a concatenation are the favourites of each part, in turn |
| `PhotosPage.SelectionAfterToggle` | src/components/PhotosPage.tsx:80-82 | after a toggle the selection is present iff it was, keeps its id and other fields, and has its flag flipped iff its id is the toggled one |
| `PhotosPage.Gallery.constructor` | src/components/PhotosPage.tsx:17-74 | the page starts from the six seed photos with no selection; ids are unique and the selection invariant holds |
| `PhotosPage.Gallery.ToggleFavorite` | src/components/PhotosPage.tsx:76-83 | the list is toggled at `id`; a selection with that id has its own flag flipped and any other selection is untouched; ids stay unique, the selection stays a copy of a list record, and every list record with the selected id equals the selection, so modal and grid agree |
| `PhotosPage.Gallery.SelectPhoto` | src/components/PhotosPage.tsx:115 | tapping a card selects a copy of that list record and leaves the list alone |
| `PhotosPage.Gallery.ClosePhoto` | src/components/PhotosPage.tsx:183-234 | closing clears the selection and leaves the list alone |
| `PhotosPage.ToggleKeepsSelectionSynced` | src/components/PhotosPage.tsx:76-82 | if the selection is empty or a copy of a list record before a toggle, the same holds after it |
| `PhotosPage.SyncedIsListRecord` | src/components/PhotosPage.tsx:74-82 | with unique ids, a synced selection equals the list record with its id, so modal and grid agree on `isFavorite` |
| `PhotosPage.SeedFavorites` | src/components/PhotosPage.tsx:17-101 | the seed has 6 photos, 4 of them favourites |
| `PhotosPage.SeedScenario` | src/components/PhotosPage.tsx:17-85 | with photo 3 selected, toggling id 3 leaves the list record and the selection both favourite and equal, and the favourites become 5 |
| `ContactsPage.EmergencyContacts` | src/components/ContactsPage.tsx:65 | `emergencyContacts` holds exactly the contacts whose `isEmergency` is present and true |
| `ContactsPage.RegularContacts` | src/components/ContactsPage.tsx:66 | `regularContacts` holds exactly the contacts whose `isEmergency` is false or absent |
| `ContactsPage.GroupsInOrder` | src/components/ContactsPage.tsx:65-66 | both groups keep list order: the group of a concatenation is the group of each part, in turn |
| `ContactsPage.GroupsPartition` | src/components/ContactsPage.tsx:65-66 | each contact is in exactly one group; the group sizes add up to the list length and the group multisets to the list's |
| `ContactsPage.ContactsScenario` | src/components/ContactsPage.tsx:16-66 | contacts 1-3 form the emergency group and contacts 4-6 the other group, in list order |
| `HomePage.Greeting` | src/components/HomePage.tsx:12 | for every hour, the greeting is "Good Morning" iff the hour is before 12, "Good Afternoon" iff 12-17, and "Good Evening" iff 18 or later |
| `HomePage.ShowsSun` | src/components/HomePage.tsx:12-42 | the sun icon is shown iff the greeting is not "Good Evening" |
| `HomePage.GreetingByHour` | src/components/HomePage.tsx:12 | for hours 0-23 the greeting is "Good Morning" iff the hour is 0-11, "Good Afternoon" iff 12-17, and "Good Evening" iff 18-23 |
| `HomePage.QuickActionTargets` | src/components/HomePage.tsx:14-19 | the quick actions open medication, schedule, memory and photos, in that order, and each action's id is its page's tag; the emergency button opens contacts |
| `App.PageTitle` | src/App.tsx:24-31 | every page has a non-empty header title |
| `App.HasBackButton` | src/App.tsx:56 | the back button is shown iff the header title is not the home title "Care Companion" |
| `App.NavigationCoversPages` | src/App.tsx:15-22 | the six bar entries have distinct ids and cover every page |
| `App.ExactlyOneActive` | src/App.tsx:83-85 | exactly one bar entry is active, and it is the current page's |
| `App.ExactlyOneRendered` | src/App.tsx:72-77 | exactly one page component is rendered, and it is the current page's |
| `App.Shell.constructor` | src/App.tsx:13 | the app starts on home with no page state mounted |
| `App.Shell.Navigate` | src/App.tsx:72-89 | any navigation makes the requested page current from any state. Staying on the same page keeps its state; moving to another page mounts a fresh component whose list is its seed; the back button is shown iff the target is not home |
| `App.Shell.Back` | src/App.tsx:56-58 | the back button makes home current, hides itself, and unmounts every page state |
| `App.NavigationScenario` | src/App.tsx:13-89 | on the schedule, the list after toggling id 5 is the seed toggled at 5; after going home and back the list is the seed again, which differs from the toggled one |

## Left out

- Styling, icons, image URLs, exercise icons, photo `url` and contact `photoUrl`
  are left out. They are presentation only.
- The call buttons ("Call 911", "Call Now", "Call", "Call Doctor") are left out.
  They have no handler.
- The medication and schedule progress-bar widths are left out. They are floating
  point and divide by the list length with no zero guard. The integer counts they
  are built from are modelled.
- `MemoryPage.GoalProgress` uses exact rationals (`real`) rather than IEEE doubles,
  so the model does not capture rounding in `(completedCount / 3) * 100`.
- `HomePage.GreetingByHour` takes the hour as a parameter. Reading the clock
  (`new Date()`, `getHours`) and formatting the date are left out.
- The home page's fixed "2 of 4" and "5 of 8" stats and its static "Coming Up"
  list are left out. They are constants, not derived from any page's state.
- Ids are modelled as `int`. A JavaScript `number` that is fractional or `NaN` is
  not modelled; every id in the app is a small integer literal.
- `PhotosPage.Gallery.SelectPhoto` requires the photo to be in the list, because
  only rendered cards can be tapped. `SchedulePage.DaySchedule.PressDone` requires
  a next task, because the "Done" button is rendered only then.
- The model treats each React state update as taking effect at once. Batched
  updates and stale closures are not modelled. Neither is `stopPropagation` on the
  favourite and modal clicks. Its effect is that a tap on the heart does not also
  select or close.
- `ProductCard` and `SearchAndFilter` are left out. They are unused by the app and
  hold no state logic.
