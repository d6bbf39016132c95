/** The six pages of the app, as the closed union `Page` that the app shell switches on. */
module Pages {

  datatype Page = Home | Medication | Schedule | Memory | Contacts | Photos

  /** The string tag the source uses for each page (`'home'`, `'medication'`, ...). */
  function PageId(p: Page): string
  {
    match p
    case Home => "home"
    case Medication => "medication"
    case Schedule => "schedule"
    case Memory => "memory"
    case Contacts => "contacts"
    case Photos => "photos"
  }

  /** Distinct pages have distinct tags, so a tag names exactly one page. */
  lemma PageIdInjective(p: Page, q: Page)
    ensures PageId(p) == PageId(q) ==> p == q
  {
  }
}
