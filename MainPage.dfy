/** The main page: a single `currentPage` value chooses between the landing
    page with its three section cards and the three wizard pages. Markup is not
    modelled: a view is the component shown and the handlers it is given. */
module MainPage {

  /** One card of the landing page. */
  datatype Section = Section(title: string, description: string, icon: string, page: string)

  const Sections: seq<Section> := [
    Section("Movies & TV Shows",
            "Discover and get recommendations for your next favorite movie or TV show",
            "\U{1F3AC}", "movies"),
    Section("Anime",
            "Explore anime recommendations and find your next binge-worthy series",
            "\U{1F38C}", "anime"),
    Section("Books",
            "Find your next great read with personalized book recommendations",
            "\U{1F4DA}", "books")
  ]

  const Home := "main"

  /** The callbacks a view is given: the logo click, or a card's click with
      that card's page. */
  datatype Handler = LogoClick | SectionClick(page: string)

  /** What is rendered for a page value. Every view gets the logo handler; the
      landing page also gets one click handler per card. */
  datatype View =
    | MovieWizard(onLogo: Handler)
    | AnimeWizard(onLogo: Handler)
    | BookWizard(onLogo: Handler)
    | Landing(onLogo: Handler, cards: seq<Section>, onCard: seq<Handler>)

  /** The page-to-view selection: three exact page values, anything else the
      landing page. */
  function ViewOf(page: string): (v: View)
    ensures v.onLogo == LogoClick
    ensures v.MovieWizard? <==> page == "movies"
    ensures v.AnimeWizard? <==> page == "anime"
    ensures v.BookWizard? <==> page == "books"
    ensures v.Landing? <==> page !in {"movies", "anime", "books"}
    ensures v.Landing? ==> v.cards == Sections && |v.onCard| == |Sections|
    ensures v.Landing? ==> forall i :: 0 <= i < |Sections| ==> v.onCard[i] == SectionClick(Sections[i].page)
  {
    if page == "movies" then MovieWizard(LogoClick)
    else if page == "anime" then AnimeWizard(LogoClick)
    else if page == "books" then BookWizard(LogoClick)
    else Landing(LogoClick, Sections,
                 seq(|Sections|, i requires 0 <= i < |Sections| => SectionClick(Sections[i].page)))
  }

  /** The page after a handler runs: a section click moves to a truthy (here:
      non-empty) page, the logo goes home. */
  function NextPage(current: string, h: Handler): (next: string)
    ensures h.LogoClick? ==> next == Home
    ensures h.SectionClick? && h.page != "" ==> next == h.page
    ensures h.SectionClick? && h.page == "" ==> next == current
  {
    match h
    case LogoClick => Home
    case SectionClick(page) => if page != "" then page else current
  }

  /** The landing page lists the sections for movies, anime and books, in that
      order, and each card's click opens the wizard of its page. */
  lemma CardsOpenTheirWizards(current: string)
    ensures |Sections| == 3
    ensures Sections[0].page == "movies" && Sections[1].page == "anime" && Sections[2].page == "books"
    ensures forall i :: 0 <= i < |Sections| ==> !ViewOf(NextPage(current, SectionClick(Sections[i].page))).Landing?
  {
    assert NextPage(current, SectionClick(Sections[0].page)) == "movies";
    assert NextPage(current, SectionClick(Sections[1].page)) == "anime";
    assert NextPage(current, SectionClick(Sections[2].page)) == "books";
  }

  /** Whatever is shown, its logo handler leads to the landing page, and a
      second logo click changes nothing. */
  lemma LogoAlwaysGoesHome(page: string)
    ensures NextPage(page, ViewOf(page).onLogo) == Home
    ensures ViewOf(NextPage(page, ViewOf(page).onLogo)).Landing?
    ensures NextPage(NextPage(page, LogoClick), LogoClick) == NextPage(page, LogoClick)
  {
  }

  /** The component: its one piece of state and its two handlers. */
  class Page {
    var currentPage: string

    constructor ()
      ensures currentPage == Home
      ensures View().Landing?
    {
      currentPage := Home;
    }

    function View(): View
      reads this
    {
      ViewOf(currentPage)
    }

    /** handleSectionClick. */
    method HandleSectionClick(page: string)
      modifies this
      ensures currentPage == NextPage(old(currentPage), SectionClick(page))
    {
      if page != "" {
        currentPage := page;
      }
    }

    /** handleLogoClick. */
    method HandleLogoClick()
      modifies this
      ensures currentPage == NextPage(old(currentPage), LogoClick)
      ensures View().Landing?
    {
      currentPage := Home;
    }
  }
}
