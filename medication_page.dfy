/** The medication page: today's doses, each marked taken or not, and the
    "taken / total" counter above them. */
module MedicationPage {
  import opened ListOps
  import opened Toggleable

  /** The fields of a dose that a toggle never changes. */
  datatype MedicationInfo = MedicationInfo(name: string, dosage: string, time: string, instructions: string)

  /** A dose; its flag is `taken`. */
  type Medication = Item<MedicationInfo>

  /** The list the page starts with every time it is mounted. */
  function Seed(): seq<Medication>
  {
    [ Item(1, MedicationInfo("Donepezil", "10mg", "9:00 AM", "Take with breakfast"), true),
      Item(2, MedicationInfo("Memantine", "5mg", "9:00 AM", "Take with food"), true),
      Item(3, MedicationInfo("Vitamin B12", "1000mcg", "2:00 PM", "With or without food"), false),
      Item(4, MedicationInfo("Donepezil", "10mg", "6:00 PM", "Take with dinner"), false) ]
  }

  /** `takenCount`: the number of doses marked taken, never more than `totalCount`. */
  function TakenCount(meds: seq<Medication>): (n: nat)
    ensures n <= TotalCount(meds)
  {
    CountFlagged(meds)
  }

  /** `totalCount`: the length of the list, which is the doses taken plus the doses
      still to take. */
  function TotalCount(meds: seq<Medication>): (n: nat)
    ensures n == CountFlagged(meds) + |Filter(meds, Unflagged)|
  {
    FlaggedSplit(meds);
    |meds|
  }

  /** The page's state: the `medications` list. */
  class MedicationList {
    var medications: seq<Medication>

    constructor ()
      ensures medications == Seed()
    {
      medications := Seed();
    }

    /** `toggleMedication(id)`: flips `taken` on the doses with this id. */
    method ToggleMedication(id: int)
      modifies this
      ensures medications == Toggled(old(medications), id)
    {
      medications := Toggled(medications, id);
    }
  }

  /** With unique ids, toggling a dose that was not taken raises the taken count by one,
      and toggling one that was taken lowers it by one; the total does not move. */
  lemma ToggleMovesTakenCount(meds: seq<Medication>, k: nat)
    requires UniqueIds(meds) && k < |meds|
    ensures TotalCount(Toggled(meds, meds[k].id)) == TotalCount(meds)
    ensures TakenCount(Toggled(meds, meds[k].id)) ==
              if meds[k].flag then TakenCount(meds) - 1 else TakenCount(meds) + 1
  {
    CountToggled(meds, k);
  }

  /** The seed shows 2/4; after toggling id 3 the page shows 3/4. */
  lemma SeedScenario()
    ensures TakenCount(Seed()) == 2 && TotalCount(Seed()) == 4
    ensures TakenCount(Toggled(Seed(), 3)) == 3 && TotalCount(Toggled(Seed(), 3)) == 4
  {
    var s := Seed();
    assert UniqueIds(s);
    assert s[2].id == 3 && !s[2].flag;
    ToggleMovesTakenCount(s, 2);
  }
}
