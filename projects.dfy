/** The Projects page: the fixed project catalogue, the two-stage
    category/search filter, the category badge helpers and the tech-badge
    highlight test (src/pages/Projects.tsx). */
module ProjectsPage {
  import opened Strings
  import opened Sequences

  /** The four values of the `category` union type of a project. */
  datatype Category = UiUxDesign | Frontend | Backend | QualityAssurance

  /** The string each category value is written as. */
  function CategoryName(c: Category): (name: string)
    ensures name != "all"
  {
    match c
    case UiUxDesign => "UI/UX Design"
    case Frontend => "Frontend"
    case Backend => "Backend"
    case QualityAssurance => "Quality Assurance"
  }

  /** One catalogue entry; the image asset is not modelled. */
  datatype Project = Project(
    title: string,
    description: string,
    tech: seq<string>,
    category: Category,
    route: string,
    company: string)

  /** The ten projects shown on the page, in display order. Long
      descriptions are split into short literals to keep verification fast. */
  function Catalogue(): seq<Project>
  {
    [MilAutoDrive(), EPunch(), Workbook(), YfEssentials(), TicketMate(),
     Bici(), CleanseGuru(), Chirp(), AssetDashboard(), FlyerDesign()]
  }

  function MilAutoDrive(): Project
  {
    Project(
      "MilAuto Drive",
      "A comprehensive " + "web platform " + "for auto " + "trading, " + "connecting " +
      "buyers and " + "sellers of " + "vehicles with " + "auctions, " + "mechanics, " +
      "spare parts, " + "and " + "blockchain-backed " + "vehicle " + "history. " +
      "Designed for a " + "trusted car " + "business in " + "Ghana.",
      ["Figma", "UI/UX Design", "Web Design", "Adobe"],
      UiUxDesign,
      "/projects/milauto-drive",
      "Freelance - Personal Project")
  }

  function EPunch(): Project
  {
    Project(
      "ePunch",
      "Modern HR " + "solution for " + "time and " + "attendance " + "management " +
      "using mobile " + "and facial " + "verification. I " + "redesigned the " +
      "mobile app " + "UI/UX and HR " + "dashboard, and " + "contributed to " + "Flutter " +
      "development.",
      ["Figma", "Flutter", "Firebase", "UI/UX Design", "Adobe"],
      Frontend,
      "/projects/epunch",
      "Enterprise Computing Limited")
  }

  function Workbook(): Project
  {
    Project(
      "Workbook",
      "All-in-one ERP " + "fintech web " + "application " + "where I served " +
      "as QA Engineer " + "and designed " + "the dashboard " + "UI. Managed " + "quality " +
      "assurance using " + "ClickUp and " + "ensured " + "seamless user " + "experience " +
      "across the " + "platform.",
      ["Figma", "QA Testing", "ClickUp", "UI Design", "Canva"],
      QualityAssurance,
      "/projects/workbook",
      "Everything Technologies Company")
  }

  function YfEssentials(): Project
  {
    Project(
      "YF Essentials",
      "E-commerce " + "mobile app for " + "household " + "cleaning " + "essentials with " +
      "delivery & " + "pickup, product " + "categories, " + "cart & " + "checkout, order " +
      "tracking, " + "loyalty points, " + "subscriptions, " + "and mobile " +
      "money payments.",
      ["Figma", "UI/UX Design", "Prototyping", "Adobe"],
      UiUxDesign,
      "/projects/yf-essentials",
      "Freelance")
  }

  function TicketMate(): Project
  {
    Project(
      "TicketMate",
      "Designed a " + "seamless " + "ticket-booking " + "experience for " +
      "a school group " + "project, " + "focusing on " + "user flow " + "mapping, " +
      "high-fidelity " + "interface " + "design, and " + "accessibility.",
      ["Figma", "UI/UX Design", "User Flow", "Prototyping"],
      UiUxDesign,
      "/projects/ticketmate",
      "School Project")
  }

  function Bici(): Project
  {
    Project(
      "Bici",
      "A gamified " + "menstrual " + "tracking app " + "that rewards " +
      "consistency and " + "self-care. My " + "role involved " + "UX research, " +
      "designing " + "gamification " + "mechanics, and " + "creating a " + "friendly UI " +
      "system.",
      ["Figma", "UI/UX Design", "Gamification", "User Research"],
      UiUxDesign,
      "/projects/bici",
      "Personal Project")
  }

  function CleanseGuru(): Project
  {
    Project(
      "CleanseGuru",
      "A platform for " + "booking " + "cleaning " + "services. As a " + "QA Tester, I " +
      "focused on " + "functional bugs " + "in " + "booking/signup " + "flows and " +
      "ensured UI " + "responsiveness " + "across devices.",
      ["Jira", "Manual Testing", "QA", "UI Testing"],
      QualityAssurance,
      "/projects/cleanseguru",
      "School Project")
  }

  function Chirp(): Project
  {
    Project(
      "Chirp (Twitter Clone)",
      "Evaluated a " + "social " + "microblogging " + "app for a " + "school project. " +
      "My testing " + "focused on post " + "creation, feed " + "behavior, and " +
      "API call " + "validation to " + "improve " + "stability.",
      ["Manual Testing", "QA Documentation", "API Testing"],
      QualityAssurance,
      "/projects/chirp",
      "School Project")
  }

  function AssetDashboard(): Project
  {
    Project(
      "Asset Management Dashboard",
      "Designed an " + "enterprise " + "dashboard for " + "tracking " + "organizational " +
      "assets, " + "featuring a " + "clear, " + "data-driven " + "interface, " +
      "real-time " + "tracking " + "visualizations, " + "and " + "permission-based " +
      "user journeys.",
      ["Figma", "UI/UX Design", "Data Visualization", "Dashboard Design"],
      UiUxDesign,
      "/projects/asset-dashboard",
      "Personal Project")
  }

  function FlyerDesign(): Project
  {
    Project(
      "Flyer Design",
      "Created a " + "promotional " + "flyer with " + "strong visual " + "emphasis and " +
      "message " + "clarity, " + "focusing on " + "layout design, " + "typography " +
      "hierarchy, and " + "brand-driven " + "color palettes.",
      ["Canva", "Graphic Design", "Branding", "Typography"],
      UiUxDesign,
      "/projects/flyer-design",
      "Graphic Design")
  }

  /** The category stage: keeps a project when the active tab is "all" or
      names the project's category exactly. */
  predicate InCategory(p: Project, activeCategory: string)
  {
    activeCategory == "all" || CategoryName(p.category) == activeCategory
  }

  /** The search stage's test, against a query that is already lower-cased:
      the query occurs in the lower-cased title, description, company,
      category or some tech tag. */
  predicate MatchesQuery(p: Project, query: string)
  {
    || Includes(ToLower(p.title), query)
    || Includes(ToLower(p.description), query)
    || Includes(ToLower(p.company), query)
    || Includes(ToLower(CategoryName(p.category)), query)
    || exists i :: 0 <= i < |p.tech| && Includes(ToLower(p.tech[i]), query)
  }

  /** `getFilteredProjects` over a given list: the category filter unless the
      tab is "all", then the search filter unless the trimmed query is empty.
      The search itself uses the lower-cased query without trimming it. */
  function FilterProjects(projects: seq<Project>, activeCategory: string, searchQuery: string): (r: seq<Project>)
    ensures IsSubsequence(r, projects)
    ensures forall p :: p in r <==>
      p in projects && InCategory(p, activeCategory)
      && (AllWhitespace(searchQuery) || MatchesQuery(p, ToLower(searchQuery)))
  {
    var byCategory :=
      if activeCategory != "all" then Filter(projects, (p: Project) => CategoryName(p.category) == activeCategory)
      else (SubsequenceReflexive(projects); projects);
    TrimEmptyIffAllWhitespace(searchQuery);
    if Trim(searchQuery) != "" then
      var query := ToLower(searchQuery);
      var r := Filter(byCategory, (p: Project) => MatchesQuery(p, query));
      SubsequenceTransitive(r, byCategory, projects);
      r
    else
      byCategory
  }

  /** `getFilteredProjects` as the page calls it, on the fixed catalogue. */
  function GetFilteredProjects(activeCategory: string, searchQuery: string): (r: seq<Project>)
    ensures IsSubsequence(r, Catalogue())
    ensures forall p :: p in r <==>
      p in Catalogue() && InCategory(p, activeCategory)
      && (AllWhitespace(searchQuery) || MatchesQuery(p, ToLower(searchQuery)))
  {
    FilterProjects(Catalogue(), activeCategory, searchQuery)
  }

  /** With every project kept by the category stage and a blank query, the
      list comes back unchanged; in particular the "all" tab with a blank
      query shows the whole catalogue in its original order. */
  lemma BlankQueryKeepsCategoryStage(projects: seq<Project>, activeCategory: string, searchQuery: string)
    requires AllWhitespace(searchQuery)
    requires forall p :: p in projects ==> InCategory(p, activeCategory)
    ensures FilterProjects(projects, activeCategory, searchQuery) == projects
  {
    TrimEmptyIffAllWhitespace(searchQuery);
    if activeCategory != "all" {
      FilterKeepsAll(projects, (p: Project) => CategoryName(p.category) == activeCategory);
    }
  }

  lemma AllTabBlankQueryShowsCatalogue(searchQuery: string)
    requires AllWhitespace(searchQuery)
    ensures GetFilteredProjects("all", searchQuery) == Catalogue()
  {
    BlankQueryKeepsCategoryStage(Catalogue(), "all", searchQuery);
  }

  /** No two catalogue entries are equal (their titles differ). */
  lemma CatalogueDistinct()
    ensures Distinct(Catalogue())
  {
  }

  /** The filtered list never repeats a project. */
  lemma FilteredHasNoDuplicates(activeCategory: string, searchQuery: string)
    ensures Distinct(GetFilteredProjects(activeCategory, searchQuery))
  {
    CatalogueDistinct();
    SubsequenceOfDistinct(GetFilteredProjects(activeCategory, searchQuery), Catalogue());
  }

  /** A tab that names no category present in the list shows nothing. */
  lemma EmptyCategoryShowsNothing(projects: seq<Project>, activeCategory: string, searchQuery: string)
    requires activeCategory != "all"
    requires forall p :: p in projects ==> CategoryName(p.category) != activeCategory
    ensures FilterProjects(projects, activeCategory, searchQuery) == []
  {
    var r := FilterProjects(projects, activeCategory, searchQuery);
    NothingInIsEmpty(r);
  }

  /** No catalogue entry is a Backend project. */
  lemma NoBackendProject()
    ensures forall p :: p in Catalogue() ==> p.category != Backend
  {
    var catalogue := Catalogue();
    forall i | 0 <= i < |catalogue| ensures catalogue[i].category != Backend {
    }
  }

  /** A category absent from a list is absent by name too, since distinct
      categories have distinct names. */
  lemma AbsentByName(projects: seq<Project>, c: Category)
    requires forall p :: p in projects ==> p.category != c
    ensures forall p :: p in projects ==> CategoryName(p.category) != CategoryName(c)
  {
  }

  /** So the Backend tab is always empty, whatever the query. */
  lemma BackendTabIsEmpty(searchQuery: string)
    ensures GetFilteredProjects("Backend", searchQuery) == []
  {
    var catalogue := Catalogue();
    NoBackendProject();
    AbsentByName(catalogue, Backend);
    EmptyCategoryShowsNothing(catalogue, "Backend", searchQuery);
  }

  /** Holds when no character after the first lower-cases to 'q'. */
  predicate NoLaterQ(s: string)
  {
    forall j :: 0 < j < |s| ==> LowerChar(s[j]) != 'q'
  }

  /** A text whose only 'q' (if any) is its first character cannot contain
      " qa" once lower-cased: the 'q' of an occurrence is never first. */
  lemma NoSpaceQa(s: string)
    requires NoLaterQ(s)
    ensures !Includes(ToLower(s), " qa")
  {
    var t := ToLower(s);
    forall i | 0 <= i <= |t| - 3 ensures !OccursAt(t, " qa", i) {
      assert t[i..i + 3][1] == t[i + 1] != 'q';
    }
  }

  /** A project matched by a query is matched by every suffix of it. */
  lemma MatchesQuerySuffix(p: Project, a: string, b: string)
    requires MatchesQuery(p, a + b)
    ensures MatchesQuery(p, b)
  {
    if Includes(ToLower(p.title), a + b) {
      IncludesSuffix(ToLower(p.title), a, b);
    } else if Includes(ToLower(p.description), a + b) {
      IncludesSuffix(ToLower(p.description), a, b);
    } else if Includes(ToLower(p.company), a + b) {
      IncludesSuffix(ToLower(p.company), a, b);
    } else if Includes(ToLower(CategoryName(p.category)), a + b) {
      IncludesSuffix(ToLower(CategoryName(p.category)), a, b);
    } else {
      var i :| 0 <= i < |p.tech| && Includes(ToLower(p.tech[i]), a + b);
      IncludesSuffix(ToLower(p.tech[i]), a, b);
    }
  }

  /** Whitespace put in front of a query never lets more projects through
      the search stage (the last conjunct of FilterProjects' membership
      condition): the search matches the whole lower-cased query, leading
      whitespace included, while the emptiness test looks at the trimmed
      query. */
  lemma LeadingWhitespaceNeverWidens(p: Project, w: string, q: string)
    requires AllWhitespace(w)
    requires AllWhitespace(w + q) || MatchesQuery(p, ToLower(w + q))
    ensures AllWhitespace(q) || MatchesQuery(p, ToLower(q))
  {
    if !AllWhitespace(q) {
      if AllWhitespace(w + q) {
        AllWhitespaceSuffix(w, q);
      }
      ToLowerAppend(w, q);
      MatchesQuerySuffix(p, ToLower(w), ToLower(q));
    }
  }

  /** The Chirp project's tag "QA Documentation" matches the query "qa" but
      not " qa", although " qa" is not blank and so is searched for. */
  lemma UntrimmedQueryExample()
    ensures !AllWhitespace(" qa")
    ensures Includes(ToLower("QA Documentation"), "qa")
    ensures !Includes(ToLower("QA Documentation"), " qa")
  {
    assert !IsJsWhitespace(" qa"[1]);
    assert OccursAt(ToLower("QA Documentation"), "qa", 0);
    NoSpaceQa("QA Documentation");
  }

  /** A project of the list that the query matches, under a query that is
      not blank, is shown on the "all" tab. */
  lemma MatchedIsShown(projects: seq<Project>, p: Project, searchQuery: string)
    requires p in projects && !AllWhitespace(searchQuery)
    requires MatchesQuery(p, ToLower(searchQuery))
    ensures p in FilterProjects(projects, "all", searchQuery)
  {
  }

  /** A project the query does not match, under a query that is not blank,
      is shown on no tab. */
  lemma UnmatchedIsHidden(projects: seq<Project>, p: Project, activeCategory: string, searchQuery: string)
    requires !AllWhitespace(searchQuery) && !MatchesQuery(p, ToLower(searchQuery))
    ensures p !in FilterProjects(projects, activeCategory, searchQuery)
  {
  }

  /** At the catalogue level: the "all" tab with the query "qa" shows Chirp,
      through its tag "QA Documentation"... */
  lemma ChirpFoundByQa()
    ensures Chirp() in GetFilteredProjects("all", "qa")
  {
    var p := Chirp();
    UntrimmedQueryExample();
    assert Catalogue()[7] == p;
    assert ToLower("qa") == "qa";
    assert !IsJsWhitespace("qa"[0]);
    assert p.tech[1] == "QA Documentation";
    MatchedIsShown(Catalogue(), p, "qa");
  }

  /** ... while the query " qa" hides it: no text of Chirp contains " qa"
      once lower-cased. */
  lemma ChirpMissedBySpaceQa()
    ensures Chirp() !in GetFilteredProjects("all", " qa")
  {
    ChirpNeverMatchesSpaceQa();
    assert ToLower(" qa") == " qa";
    assert !IsJsWhitespace(" qa"[1]);
    UnmatchedIsHidden(Catalogue(), Chirp(), "all", " qa");
  }

  lemma ChirpNeverMatchesSpaceQa()
    ensures !MatchesQuery(Chirp(), " qa")
  {
    var p := Chirp();
    ChirpDescriptionNoLaterQ();
    NoSpaceQa(p.description);
    ChirpShortTextsMiss();
    NoSpaceQa(CategoryName(p.category));
  }

  /** The title, the company and the tags of Chirp. */
  lemma ChirpShortTextsMiss()
    ensures !Includes(ToLower("Chirp (Twitter Clone)"), " qa")
    ensures !Includes(ToLower("School Project"), " qa")
    ensures !Includes(ToLower("Manual Testing"), " qa")
    ensures !Includes(ToLower("QA Documentation"), " qa")
    ensures !Includes(ToLower("API Testing"), " qa")
  {
    NoSpaceQa("Chirp (Twitter Clone)");
    NoSpaceQa("School Project");
    NoSpaceQa("Manual Testing");
    NoSpaceQa("QA Documentation");
    NoSpaceQa("API Testing");
  }

  /** Chirp's description, checked a few literal pieces at a time. */
  lemma ChirpDescriptionNoLaterQ()
    ensures NoLaterQ(Chirp().description)
  {
    var d := "Evaluated a " + "social " + "microblogging " + "app for a ";
    ChirpDescriptionStage2(d);
    d := d + "school project. " + "My testing " + "focused on post ";
    ChirpDescriptionStage3(d);
    d := d + "creation, feed " + "behavior, and " + "API call ";
    ChirpDescriptionStage4(d);
    d := d + "validation to " + "improve " + "stability.";
    assert d == Chirp().description;
  }

  lemma ChirpDescriptionStage2(x: string)
    requires NoQ(x)
    ensures NoQ(x + "school project. " + "My testing " + "focused on post ")
  {
    var y := x;
    NoQAppend(y, "school project. ");
    y := y + "school project. ";
    NoQAppend(y, "My testing ");
    y := y + "My testing ";
    NoQAppend(y, "focused on post ");
    y := y + "focused on post ";
  }

  lemma ChirpDescriptionStage3(x: string)
    requires NoQ(x)
    ensures NoQ(x + "creation, feed " + "behavior, and " + "API call ")
  {
    var y := x;
    NoQAppend(y, "creation, feed ");
    y := y + "creation, feed ";
    NoQAppend(y, "behavior, and ");
    y := y + "behavior, and ";
    NoQAppend(y, "API call ");
    y := y + "API call ";
  }

  lemma ChirpDescriptionStage4(x: string)
    requires NoQ(x)
    ensures NoQ(x + "validation to " + "improve " + "stability.")
  {
    var y := x;
    NoQAppend(y, "validation to ");
    y := y + "validation to ";
    NoQAppend(y, "improve ");
    y := y + "improve ";
    NoQAppend(y, "stability.");
    y := y + "stability.";
  }

  /** Holds when no character lower-cases to 'q'. */
  predicate NoQ(s: string)
  {
    forall j :: 0 <= j < |s| ==> LowerChar(s[j]) != 'q'
  }

  lemma NoQAppend(a: string, b: string)
    requires NoQ(a) && NoQ(b)
    ensures NoQ(a + b)
  {
    forall j | |a| <= j < |a + b| ensures LowerChar((a + b)[j]) != 'q' {
      assert (a + b)[j] == b[j - |a|];
    }
  }

  /** The badge highlight test of a tech tag: the raw query is non-empty and
      the lower-cased tag contains the lower-cased raw query. */
  predicate TechHighlighted(tech: string, searchQuery: string)
  {
    searchQuery != "" && Includes(ToLower(tech), ToLower(searchQuery))
  }

  /** A highlighted tag of a project makes the project pass the search stage
      whenever the search stage is applied (the query is not blank). */
  lemma HighlightImpliesMatch(p: Project, i: nat, searchQuery: string)
    requires i < |p.tech| && TechHighlighted(p.tech[i], searchQuery)
    ensures MatchesQuery(p, ToLower(searchQuery))
  {
  }

  /** A whitespace-only query is blank, so it filters nothing out (see
      AllTabBlankQueryShowsCatalogue), yet it is not empty, so it highlights
      every tag with a space in it, such as "UI/UX Design". */
  lemma BlankQueryStillHighlights()
    ensures AllWhitespace(" ")
    ensures TechHighlighted("UI/UX Design", " ")
  {
    assert ToLower(" ") == " ";
    assert OccursAt(ToLower("UI/UX Design"), " ", 5);
  }

  /** A tag without a space, such as "Figma", is not highlighted by it. */
  lemma BlankQuerySkipsSingleWordTag()
    ensures !TechHighlighted("Figma", " ")
  {
    var t := ToLower("Figma");
    assert ToLower(" ") == " ";
    forall i | 0 <= i <= |t| - 1 ensures !OccursAt(t, " ", i) {
      assert t[i..i + 1][0] == t[i] == LowerChar("Figma"[i]) != ' ';
    }
  }

  /** The icon shown on a category badge. */
  datatype Icon = Palette | Code2 | Database | CheckSquare

  /** `getCategoryIcon`: one icon per known category, the code icon for any
      other string. */
  function CategoryIcon(category: string): (icon: Icon)
    ensures (forall c :: CategoryName(c) != category) ==> icon == Code2
  {
    match category
    case "UI/UX Design" => assert CategoryName(UiUxDesign) == category; Palette
    case "Frontend" => Code2
    case "Backend" => assert CategoryName(Backend) == category; Database
    case "Quality Assurance" => assert CategoryName(QualityAssurance) == category; CheckSquare
    case _ => Code2
  }

  /** Distinct categories get distinct icons. */
  lemma IconsDistinguishCategories(a: Category, b: Category)
    requires CategoryIcon(CategoryName(a)) == CategoryIcon(CategoryName(b))
    ensures a == b
  {
  }

  const DefaultColor := "bg-primary/20 text-primary border-primary/30"

  /** `getCategoryColor`: one colour class list per known category, the
      primary colours for any other string. */
  function CategoryColor(category: string): (color: string)
    ensures color == DefaultColor <==> forall c :: CategoryName(c) != category
  {
    match category
    case "UI/UX Design" => assert CategoryName(UiUxDesign) == category; "bg-purple-500/20 text-purple-600 border-purple-500/30"
    case "Frontend" => assert CategoryName(Frontend) == category; "bg-blue-500/20 text-blue-600 border-blue-500/30"
    case "Backend" => assert CategoryName(Backend) == category; "bg-green-500/20 text-green-600 border-green-500/30"
    case "Quality Assurance" => assert CategoryName(QualityAssurance) == category; "bg-orange-500/20 text-orange-600 border-orange-500/30"
    case _ => DefaultColor
  }

  /** Distinct categories get distinct colours. */
  lemma ColorsDistinguishCategories(a: Category, b: Category)
    requires CategoryColor(CategoryName(a)) == CategoryColor(CategoryName(b))
    ensures a == b
  {
  }
}
