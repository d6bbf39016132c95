/** The memory-games page: six exercises, each completed or not, the points and
    "done" counters, and a daily goal of three games with its progress bar. */
module MemoryPage {
  import opened ListOps
  import opened Toggleable

  datatype Difficulty = Easy | Medium | Hard

  /** The fields of an exercise that a toggle never changes. */
  datatype Game = Game(title: string, description: string, difficulty: Difficulty)

  /** An exercise; its flag is `completed`. */
  type Exercise = Item<Game>

  /** Points earned per completed exercise. */
  const PointsPerGame: nat := 10

  /** The number of games in the daily goal. */
  const DailyGoal: nat := 3

  /** The list the page starts with every time it is mounted. */
  function Seed(): seq<Exercise>
  {
    [ Item(1, Game("Word Match", "Match related words together", Easy), true),
      Item(2, Game("Picture Pairs", "Find matching images", Easy), false),
      Item(3, Game("Number Game", "Remember number patterns", Medium), false),
      Item(4, Game("Story Time", "Listen and answer questions", Medium), false),
      Item(5, Game("Puzzle Fun", "Complete jigsaw puzzles", Medium), false),
      Item(6, Game("Name the Song", "Identify familiar melodies", Easy), false) ]
  }

  /** `completedCount`: the number of completed exercises; the others are the ones
      still offering "Start Game". */
  function CompletedCount(exercises: seq<Exercise>): (n: nat)
    ensures n + |Filter(exercises, Unflagged)| == |exercises|
  {
    FlaggedSplit(exercises);
    CountFlagged(exercises)
  }

  /** `totalPoints`: ten points per completed exercise, so a multiple of ten and at most
      ten times the number of exercises. */
  function TotalPoints(exercises: seq<Exercise>): (p: nat)
    ensures p % PointsPerGame == 0 && p / PointsPerGame == CompletedCount(exercises)
    ensures p <= PointsPerGame * |exercises|
  {
    CompletedCount(exercises) * PointsPerGame
  }

  /** The "Goal achieved!" line is shown when at least three games are completed, that is
      when at least three positions of the list hold a completed exercise. */
  predicate GoalMet(exercises: seq<Exercise>): (met: bool)
    ensures met <==> |Positions(exercises, Flagged)| >= DailyGoal
  {
    CompletedCount(exercises) >= DailyGoal
  }

  /** The width of the goal bar, `Math.min((completedCount / 3) * 100, 100)`, taken as an
      exact rational: never more than 100, and exactly 100 when the goal is met. */
  function GoalProgress(completed: nat): (w: real)
    ensures 0.0 <= w <= 100.0
    ensures w == 100.0 <==> completed >= DailyGoal
    ensures completed < DailyGoal ==> w == completed as real * 100.0 / 3.0
  {
    var raw := (completed as real / 3.0) * 100.0;
    if raw < 100.0 then raw else 100.0
  }

  /** The buttons on an exercise card. "Start Game" has no handler. */
  datatype Label = StartGame | MarkComplete | Undo

  datatype Action = NoHandler | ToggleComplete(id: int)

  datatype Button = Button(text: Label, onClick: Action)

  /** "Start Game" is offered only for an exercise not yet completed; the last button is
      "Undo" or "Mark Complete" according to the flag and toggles the exercise's id. */
  function ExerciseButtons(ex: Exercise): (r: seq<Button>)
    ensures |r| == (if ex.flag then 1 else 2)
    ensures (forall i :: 0 <= i < |r| ==> r[i].text != StartGame) <==> ex.flag
    ensures r[|r| - 1].onClick == ToggleComplete(ex.id)
    ensures r[|r| - 1].text == (if ex.flag then Undo else MarkComplete)
  {
    var toggle := Button(if ex.flag then Undo else MarkComplete, ToggleComplete(ex.id));
    if ex.flag then [toggle]
    else var r := [Button(StartGame, NoHandler), toggle]; assert r[0].text == StartGame; r
  }

  /** The page's state: the `exercises` list. */
  class ExerciseList {
    var exercises: seq<Exercise>

    constructor ()
      ensures exercises == Seed()
    {
      exercises := Seed();
    }

    /** `toggleComplete(id)`: flips `completed` on the exercises with this id. */
    method ToggleComplete(id: int)
      modifies this
      ensures exercises == Toggled(old(exercises), id)
    {
      exercises := Toggled(exercises, id);
    }
  }

  /** The goal line and a full progress bar go together. */
  lemma GoalMetIffFullBar(exercises: seq<Exercise>)
    ensures GoalMet(exercises) <==> GoalProgress(CompletedCount(exercises)) == 100.0
  {
  }

  /** Every seed exercise has its own id (its position plus one). */
  lemma SeedIdsUnique()
    ensures UniqueIds(Seed())
  {
    var s := Seed();
    forall i, j | 0 <= i < j < |s| ensures s[i].id != s[j].id {
      assert s[i].id == i + 1 && s[j].id == j + 1;
    }
  }

  /** The seed has 1 of 6 done and the goal unmet; completing exercises 2 and 3 gives
      three done, 30 points, and the goal met. */
  lemma SeedScenario()
    ensures CompletedCount(Seed()) == 1 && !GoalMet(Seed())
    ensures var s := Toggled(Toggled(Seed(), 2), 3);
            CompletedCount(s) == 3 && TotalPoints(s) == 30 && GoalMet(s)
  {
    var s0 := Seed();
    SeedIdsUnique();
    assert s0[1].id == 2 && !s0[1].flag;
    CountToggled(s0, 1);
    var s1 := Toggled(s0, 2);
    ToggledKeepsIds(s0, 2);
    ToggledAt(s0, 2, 2);
    assert s1[2].id == 3 && !s1[2].flag;
    CountToggled(s1, 2);
  }
}
