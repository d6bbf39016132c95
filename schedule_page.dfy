/** The schedule page: today's activities in time order, each completed or not,
    the "completed / total" counter, and the "NEXT UP" card showing the first
    activity not yet completed, with a "Done" button. */
module SchedulePage {
  import opened ListOps
  import opened Toggleable

  datatype Category = Meal | Medication | Exercise | Social | Rest | Hygiene

  /** The fields of an activity that a toggle never changes. */
  datatype Activity = Activity(time: string, activity: string, category: Category)

  /** A schedule entry; its flag is `completed`. */
  type ScheduleItem = Item<Activity>

  /** The list the page starts with every time it is mounted. */
  function Seed(): seq<ScheduleItem>
  {
    [ Item(1, Activity("7:00 AM", "Wake up", Hygiene), true),
      Item(2, Activity("8:00 AM", "Breakfast", Meal), true),
      Item(3, Activity("9:00 AM", "Morning meds", Medication), true),
      Item(4, Activity("10:00 AM", "Short walk", Exercise), true),
      Item(5, Activity("12:00 PM", "Lunch", Meal), false),
      Item(6, Activity("1:00 PM", "Rest time", Rest), false),
      Item(7, Activity("2:00 PM", "Memory games", Exercise), false),
      Item(8, Activity("3:00 PM", "Snack", Meal), false),
      Item(9, Activity("4:00 PM", "Social time", Social), false),
      Item(10, Activity("6:00 PM", "Dinner", Meal), false),
      Item(11, Activity("6:30 PM", "Evening meds", Medication), false),
      Item(12, Activity("9:00 PM", "Get ready for bed", Hygiene), false) ]
  }

  /** `completedCount`: the number of completed entries. It reaches the list length
      exactly when there is no next task. */
  function CompletedCount(schedule: seq<ScheduleItem>): (n: nat)
    ensures n == |schedule| <==> NextTask(schedule).None?
  {
    AllFlaggedIffFull(schedule);
    CountFlagged(schedule)
  }

  /** `nextTask`: the first entry, in list order, that is not completed; absent
      exactly when every entry is completed. */
  function NextTask(schedule: seq<ScheduleItem>): (r: Option<ScheduleItem>)
    ensures r.None? <==> forall i :: 0 <= i < |schedule| ==> schedule[i].flag
    ensures r.Some? ==> exists k :: 0 <= k < |schedule| && schedule[k] == r.value && !r.value.flag &&
                                   forall j :: 0 <= j < k ==> schedule[j].flag
  {
    match FirstUnflagged(schedule)
    case None => None
    case Some(k) => Some(schedule[k])
  }

  /** The buttons on an entry's card. */
  datatype Label = MarkComplete | Undo

  datatype Button = Button(text: Label, onClick: int)

  /** An entry's card carries "Mark Complete" when it is not completed and "Undo" when it
      is; both call `toggleComplete` with the entry's id (`onClick` is that id). */
  function ItemButtons(item: ScheduleItem): (r: seq<Button>)
    ensures |r| == 1 && r[0].onClick == item.id
    ensures r[0].text == MarkComplete <==> !item.flag
    ensures r[0].text == Undo <==> item.flag
  {
    if item.flag then [Button(Undo, item.id)] else [Button(MarkComplete, item.id)]
  }

  /** The page's state: the `schedule` list. */
  class DaySchedule {
    var schedule: seq<ScheduleItem>

    constructor ()
      ensures schedule == Seed()
    {
      schedule := Seed();
    }

    /** `toggleComplete(id)`: flips `completed` on the entries with this id. */
    method ToggleComplete(id: int)
      modifies this
      ensures schedule == Toggled(old(schedule), id)
    {
      schedule := Toggled(schedule, id);
    }

    /** The "Done" button of the NEXT UP card, which is shown only while there is a next
        task: it toggles that task's id. */
    method PressDone()
      requires NextTask(schedule).Some?
      modifies this
      ensures schedule == Toggled(old(schedule), old(NextTask(schedule)).value.id)
    {
      ToggleComplete(NextTask(schedule).value.id);
    }
  }

  /** With unique ids, pressing "Done" marks the next task completed, and the new next
      task is the first entry strictly after the old one that is not completed, or
      there is none when every later entry is completed. */
  lemma DoneAdvancesNextTask(schedule: seq<ScheduleItem>, k: nat)
    requires UniqueIds(schedule) && k < |schedule| && NextTask(schedule) == Some(schedule[k])
    ensures var after := Toggled(schedule, schedule[k].id);
            after[k].flag &&
            (NextTask(after).None? <==> forall j :: k < j < |schedule| ==> schedule[j].flag) &&
            (NextTask(after).Some? ==>
               exists j :: k < j < |schedule| && NextTask(after) == Some(schedule[j]) &&
                           !schedule[j].flag && forall m :: k < m < j ==> schedule[m].flag)
  {
    var after := Toggled(schedule, schedule[k].id);
    assert FirstUnflagged(schedule) == Some(k);
    DoneAdvances(schedule, k);
    ToggledAt(schedule, schedule[k].id, k);
    match FirstUnflagged(after)
    case None =>
    case Some(j) =>
      ToggledAt(schedule, schedule[k].id, j);
  }

  /** Every seed entry has its own id (its position plus one). */
  lemma SeedIdsUnique()
    ensures UniqueIds(Seed())
  {
    var s := Seed();
    forall i, j | 0 <= i < j < |s| ensures s[i].id != s[j].id {
      assert s[i].id == i + 1 && s[j].id == j + 1;
    }
  }

  /** The seed's next task is id 5 ("12:00 PM", "Lunch"); once it is done, the next task
      is id 6 ("1:00 PM", "Rest time"). */
  lemma SeedScenario()
    ensures NextTask(Seed()) == Some(Item(5, Activity("12:00 PM", "Lunch", Meal), false))
    ensures NextTask(Toggled(Seed(), 5)) == Some(Item(6, Activity("1:00 PM", "Rest time", Rest), false))
    ensures CompletedCount(Seed()) == 4 && CompletedCount(Toggled(Seed(), 5)) == 5
  {
    SeedNextTasks();
    SeedCounts();
  }

  /** The next task of the seed, before and after the "Lunch" toggle. */
  lemma SeedNextTasks()
    ensures NextTask(Seed()) == Some(Seed()[4]) && Seed()[4] == Item(5, Activity("12:00 PM", "Lunch", Meal), false)
    ensures NextTask(Toggled(Seed(), 5)) == Some(Seed()[5]) && Seed()[5] == Item(6, Activity("1:00 PM", "Rest time", Rest), false)
  {
    var s := Seed();
    SeedIdsUnique();
    assert s[0].flag && s[1].flag && s[2].flag && s[3].flag && !s[4].flag && !s[5].flag;
    assert FirstUnflagged(s) == Some(4);
    var after := Toggled(s, 5);
    DoneAdvances(s, 4);
    var j := FirstUnflagged(after).value;
    assert j == 5;
    ToggledAt(s, 5, 5);
  }

  /** The completed count of the seed, before and after the "Lunch" toggle. */
  lemma SeedCounts()
    ensures CountFlagged(Seed()) == 4 && CountFlagged(Toggled(Seed(), 5)) == 5
  {
    SeedCountBefore();
    SeedIdsUnique();
    var s := Seed();
    assert s[4].id == 5 && !s[4].flag;
    CountToggled(s, 4);
  }

  /** The seed opens with four completed entries. */
  lemma SeedCountBefore()
    ensures CountFlagged(Seed()) == 4
  {
    var s := Seed();
    assert s[0].flag && s[1].flag && s[2].flag && s[3].flag;
    assert forall i :: 4 <= i < |s| ==> !s[i].flag;
    CountOfDonePrefix(s, 4);
  }

  /** A list whose first k entries are completed and the rest not has k completed. */
  lemma CountOfDonePrefix(s: seq<ScheduleItem>, k: nat)
    requires k <= |s|
    requires forall i :: 0 <= i < k ==> s[i].flag
    requires forall i :: k <= i < |s| ==> !s[i].flag
    ensures CountFlagged(s) == k
  {
    FilterPrefix(s, Flagged, k);
  }
}
