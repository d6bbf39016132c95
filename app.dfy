/** The app shell: a header with the page title and, away from home, a back button;
    the one page component for `currentPage`; and a bottom bar of six navigation
    buttons. `currentPage` starts at home and is changed by the navigation buttons,
    the back button and the home page's `onNavigate` callback. A page component is
    mounted only while it is the current page, so its list state lives exactly as
    long as the user stays on it. */
module App {
  import opened ListOps
  import opened Pages
  import MedicationPage
  import SchedulePage
  import MemoryPage
  import PhotosPage
  import Toggleable

  /** The header title of each page. */
  function PageTitle(p: Page): (title: string)
    ensures |title| > 0
  {
    match p
    case Home => "Care Companion"
    case Medication => "Medication"
    case Schedule => "My Schedule"
    case Memory => "Memory Games"
    case Contacts => "Contacts"
    case Photos => "My Photos"
  }

  /** The back button is rendered on every page but home, so the header carries one
      exactly when its title is not the app's own name. */
  predicate HasBackButton(current: Page): (shown: bool)
    ensures shown <==> PageTitle(current) != "Care Companion"
  {
    current != Home
  }

  datatype NavEntry = NavEntry(id: Page, caption: string)

  /** The bottom navigation bar, in display order. */
  function Navigation(): seq<NavEntry>
  {
    [ NavEntry(Home, "Home"), NavEntry(Medication, "Meds"), NavEntry(Schedule, "Schedule"),
      NavEntry(Memory, "Memory"), NavEntry(Photos, "Photos"), NavEntry(Contacts, "Contacts") ]
  }

  /** The bar entries drawn as active: those whose id is the current page. */
  function ActiveEntries(current: Page): seq<NavEntry>
  {
    Filter(Navigation(), IsActive(current))
  }

  /** `isActive` for a bar entry: its id is the current page. */
  function IsActive(current: Page): NavEntry -> bool
  {
    (e: NavEntry) => e.id == current
  }

  /** The page components in the order the shell lists them, each guarded by
      `currentPage === ...`; the rendered ones are those whose guard holds. */
  function RenderedPages(current: Page): seq<Page>
  {
    Filter(Components(), IsCurrent(current))
  }

  /** The page components in the order the shell lists them. */
  function Components(): seq<Page>
  {
    [Home, Medication, Schedule, Memory, Contacts, Photos]
  }

  /** The guard `currentPage === p` of each component. */
  function IsCurrent(current: Page): Page -> bool
  {
    (p: Page) => p == current
  }

  /** The pages the bar entries lead to, in bar order. */
  function NavTargets(): seq<Page>
  {
    Map(Navigation(), (e: NavEntry) => e.id)
  }

  /** The six bar entries have distinct ids and cover every page. */
  lemma NavigationCoversPages()
    ensures forall i, j :: 0 <= i < j < |NavTargets()| ==> NavTargets()[i] != NavTargets()[j]
    ensures forall p: Page :: p in NavTargets()
  {
    assert NavTargets() == [Home, Medication, Schedule, Memory, Photos, Contacts];
    forall p: Page ensures p in NavTargets() {
      match p
      case Home => assert NavTargets()[0] == p;
      case Medication => assert NavTargets()[1] == p;
      case Schedule => assert NavTargets()[2] == p;
      case Memory => assert NavTargets()[3] == p;
      case Photos => assert NavTargets()[4] == p;
      case Contacts => assert NavTargets()[5] == p;
    }
  }

  /** Exactly one bar entry is active: the one for the current page. */
  lemma ExactlyOneActive(current: Page)
    ensures |ActiveEntries(current)| == 1 && ActiveEntries(current)[0].id == current
  {
    NavigationCoversPages();
    var nav := Navigation();
    var k :| 0 <= k < |nav| && NavTargets()[k] == current;
    forall i | 0 <= i < |nav| && i != k ensures !IsActive(current)(nav[i]) {
      assert NavTargets()[i] != NavTargets()[k];
    }
    FilterSingle(nav, IsActive(current), k);
  }

  /** Exactly one page component is rendered: the current page's. */
  lemma ExactlyOneRendered(current: Page)
    ensures RenderedPages(current) == [current]
  {
    var k := match current
      case Home => 0
      case Medication => 1
      case Schedule => 2
      case Memory => 3
      case Contacts => 4
      case Photos => 5;
    FilterSingle(Components(), IsCurrent(current), k);
  }

  /** The shell's state: `currentPage`, and the state of the page component mounted for
      it (the home and contacts pages have none). */
  class Shell {
    var currentPage: Page
    var medication: MedicationPage.MedicationList?
    var schedule: SchedulePage.DaySchedule?
    var memory: MemoryPage.ExerciseList?
    var photos: PhotosPage.Gallery?

    /** Only the current page's component is mounted. */
    ghost predicate Valid()
      reads this
    {
      (medication != null <==> currentPage == Medication) &&
      (schedule != null <==> currentPage == Schedule) &&
      (memory != null <==> currentPage == Memory) &&
      (photos != null <==> currentPage == Photos)
    }

    /** The app opens on the home page. */
    constructor ()
      ensures Valid() && currentPage == Home
    {
      currentPage := Home;
      medication, schedule, memory, photos := null, null, null, null;
    }

    /** `setCurrentPage(p)`, from a bar button or the home page's `onNavigate`: the current
        page becomes p from any state. Staying on the same page keeps its component and
        its list; moving to another page unmounts the old component and mounts a new
        one, whose list starts again from its seed. */
    method Navigate(p: Page)
      requires Valid()
      modifies this
      ensures Valid() && currentPage == p
      ensures HasBackButton(currentPage) <==> p != Home
      ensures p == old(currentPage) ==>
                medication == old(medication) && schedule == old(schedule) &&
                memory == old(memory) && photos == old(photos)
      ensures p != old(currentPage) && p == Medication ==>
                fresh(medication) && medication.medications == MedicationPage.Seed()
      ensures p != old(currentPage) && p == Schedule ==>
                fresh(schedule) && schedule.schedule == SchedulePage.Seed()
      ensures p != old(currentPage) && p == Memory ==>
                fresh(memory) && memory.exercises == MemoryPage.Seed()
      ensures p != old(currentPage) && p == Photos ==>
                fresh(photos) && photos.Valid() &&
                photos.photos == PhotosPage.Seed() && photos.selectedPhoto == None
    {
      if p != currentPage {
        currentPage := p;
        medication, schedule, memory, photos := null, null, null, null;
        match p
        case Medication => medication := new MedicationPage.MedicationList();
        case Schedule => schedule := new SchedulePage.DaySchedule();
        case Memory => memory := new MemoryPage.ExerciseList();
        case Photos => photos := new PhotosPage.Gallery();
        case Home =>
        case Contacts =>
      }
    }

    /** The back button: `setCurrentPage('home')`, which unmounts whatever page was open. */
    method Back()
      requires Valid()
      modifies this
      ensures Valid() && currentPage == Home && !HasBackButton(currentPage)
      ensures medication == null && schedule == null && memory == null && photos == null
    {
      Navigate(Home);
    }
  }

  /** Going to the schedule, marking "Lunch" (id 5) complete, going back home and
      returning to the schedule: the list seen before going home holds the toggle, and
      the list found on return is the seed again, so the toggle is gone. */
  method NavigationScenario() returns (toggled: seq<SchedulePage.ScheduleItem>, returned: seq<SchedulePage.ScheduleItem>)
    ensures toggled == Toggleable.Toggled(SchedulePage.Seed(), 5)
    ensures returned == SchedulePage.Seed()
    ensures toggled != returned
  {
    var app := new Shell();
    assert !HasBackButton(app.currentPage);
    app.Navigate(Schedule);
    assert HasBackButton(app.currentPage);
    app.schedule.ToggleComplete(5);
    toggled := app.schedule.schedule;
    app.Back();
    app.Navigate(Schedule);
    returned := app.schedule.schedule;
    Toggleable.ToggledAt(SchedulePage.Seed(), 5, 4);
  }
}
