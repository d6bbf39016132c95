/** The home page: a greeting chosen from the hour of the day, four quick-action
    buttons and an emergency-contacts button, all of which navigate through the
    `onNavigate` callback the app shell passes in. */
module HomePage {
  import opened ListOps
  import opened Pages

  /** The greeting for an hour of the day: each of the three greetings belongs to one
      band of hours. */
  function Greeting(hour: int): (g: string)
    ensures g == "Good Morning" <==> hour < 12
    ensures g == "Good Afternoon" <==> 12 <= hour < 18
    ensures g == "Good Evening" <==> 18 <= hour
  {
    if hour < 12 then "Good Morning" else if hour < 18 then "Good Afternoon" else "Good Evening"
  }

  /** The sun icon is shown before 18:00 and the cloud icon from then on, so the sun is
      shown exactly when the greeting is not "Good Evening". */
  predicate ShowsSun(hour: int): (sun: bool)
    ensures sun <==> Greeting(hour) != "Good Evening"
  {
    hour < 18
  }

  /** Over the hours a clock reports, 0 to 23: morning up to 11, afternoon from 12 to 17,
      evening from 18. */
  lemma GreetingByHour(hour: int)
    requires 0 <= hour <= 23
    ensures Greeting(hour) == "Good Morning" <==> hour <= 11
    ensures Greeting(hour) == "Good Afternoon" <==> 12 <= hour <= 17
    ensures Greeting(hour) == "Good Evening" <==> 18 <= hour
  {
  }

  datatype QuickAction = QuickAction(id: string, caption: string, page: Page)

  /** The quick-action buttons, in display order. */
  function QuickActions(): seq<QuickAction>
  {
    [ QuickAction("medication", "Medications", Medication),
      QuickAction("schedule", "Schedule", Schedule),
      QuickAction("memory", "Memory", Memory),
      QuickAction("photos", "Photos", Photos) ]
  }

  /** The page the "Emergency Contacts" button navigates to. */
  function EmergencyButtonTarget(): Page
  {
    Contacts
  }

  /** The quick actions lead to medication, schedule, memory and photos, in that order,
      and each action's id is the tag of the page it opens; the emergency button opens
      the contacts page. */
  lemma QuickActionTargets()
    ensures Map(QuickActions(), (a: QuickAction) => a.page) == [Medication, Schedule, Memory, Photos]
    ensures forall a :: a in QuickActions() ==> a.id == PageId(a.page)
    ensures EmergencyButtonTarget() == Contacts
  {
  }
}
