/** Concrete event sequences of the component, proved only from the contracts of
    `Directory.App`. */
module Scenarios {
  import Text
  import opened Companies
  import opened Search
  import opened Sorting
  import opened Directory

  function Acme(): Company { Company(1, "Acme", "NY", "Tech") }
  function BallCo(): Company { Company(2, "Ball Co", "LA", "Retail") }
  function Cadence(): Company { Company(3, "Cadence", "NY", "Tech") }
  function Catalog(): seq<Company> { [Acme(), BallCo(), Cadence()] }

  /** Loaded, no search, no sort: all three companies on one page. */
  method ShowAll() returns (shown: seq<Company>, pages: nat)
    ensures shown == Catalog() && pages == 1
  {
    var app := new App();
    app.OnData(Catalog());
    shown := app.CurrentCompanies();
    pages := app.PageCount();
  }

  /** No two adjacent characters of `s` are `a` then `b`. */
  lemma {:induction false} NotIncludedPair(s: string, a: char, b: char)
    requires forall i :: 0 <= i < |s| - 1 ==> s[i] != a || s[i + 1] != b
    ensures !Text.Includes(s, [a, b])
    decreases |s|
  {
    if |s| >= 2 {
      assert s[..2][0] == s[0] && s[..2][1] == s[1];
    }
    if |s| > 2 {
      NotIncludedPair(s[1..], a, b);
    }
  }

  lemma LowerNY()
    ensures Text.ToLower("NY") == "ny"
  {
  }

  lemma LocatedInNY(c: Company)
    requires c.location == "NY"
    ensures Matches(c, "ny")
  {
    LowerNY();
  }

  /** None of the name, the location and the industry of `c`, lowered,
      contains "ny". */
  lemma NotNY(c: Company)
    requires forall i :: 0 <= i < |Text.ToLower(c.name)| - 1 ==>
      Text.ToLower(c.name)[i] != 'n' || Text.ToLower(c.name)[i + 1] != 'y'
    requires forall i :: 0 <= i < |Text.ToLower(c.location)| - 1 ==>
      Text.ToLower(c.location)[i] != 'n' || Text.ToLower(c.location)[i + 1] != 'y'
    requires forall i :: 0 <= i < |Text.ToLower(c.industry)| - 1 ==>
      Text.ToLower(c.industry)[i] != 'n' || Text.ToLower(c.industry)[i + 1] != 'y'
    ensures !Matches(c, "ny")
  {
    NotIncludedPair(Text.ToLower(c.name), 'n', 'y');
    NotIncludedPair(Text.ToLower(c.location), 'n', 'y');
    NotIncludedPair(Text.ToLower(c.industry), 'n', 'y');
  }

  function Delta(): Company { Company(4, "Delta", "LA", "Retail") }
  function Echo(): Company { Company(5, "Echo", "LA", "Retail") }
  function Fable(): Company { Company(6, "Fable", "NY", "Tech") }

  /** Six companies: two pages. */
  function LargeCatalog(): seq<Company> { Catalog() + [Delta(), Echo(), Fable()] }

  lemma CatalogMatchingNY()
    ensures Matching(Catalog(), "ny") == [Acme(), Cadence()]
  {
    LocatedInNY(Acme());
    LocatedInNY(Cadence());
    NotNY(BallCo());
    assert Matching([Cadence()], "ny") == [Cadence()];
    assert Matching([BallCo(), Cadence()], "ny") == [Cadence()];
  }

  lemma AddedMatchingNY()
    ensures Matching([Delta(), Echo(), Fable()], "ny") == [Fable()]
  {
    NotNY(Delta());
    NotNY(Echo());
    LocatedInNY(Fable());
    assert Matching([Fable()], "ny") == [Fable()];
    assert Matching([Echo(), Fable()], "ny") == [Fable()];
  }

  lemma LargeCatalogMatchingNY()
    ensures Matching(LargeCatalog(), "ny") == [Acme(), Cadence(), Fable()]
  {
    CatalogMatchingNY();
    AddedMatchingNY();
    MatchingConcat(Catalog(), [Delta(), Echo(), Fable()], "ny");
  }

  /** From page 2 of six companies, searching "NY" matches the location of
      Acme, Cadence and Fable, whatever the case, and returns to page 1. */
  method SearchLocation() returns (pageBefore: int, results: seq<Company>, page: int)
    ensures pageBefore == 2
    ensures results == [Acme(), Cadence(), Fable()] && page == 1
  {
    var app := new App();
    app.OnData(LargeCatalog());
    app.NextPage();
    pageBefore := app.currentPage;
    LowerNY();
    LargeCatalogMatchingNY();
    app.HandleSearch("NY");
    results := app.filtered;
    page := app.currentPage;
  }

  lemma CatalogByIndustry()
    ensures StableSort(Catalog(), Industry) == [BallCo(), Acme(), Cadence()]
  {
    assert Text.LocaleCompare("Tech", "Retail") > 0;
    assert Text.LocaleCompare("Tech", "Tech") == 0;
    assert Catalog()[..2] == [Acme(), BallCo()] && [Acme(), BallCo()][..1] == [Acme()];
    assert StableSort([Acme()], Industry) == [Acme()];
    assert Insert([Acme()], BallCo(), Industry) == [BallCo(), Acme()];
    assert [BallCo(), Acme()] + [Cadence()] == [BallCo(), Acme(), Cadence()];
  }

  /** Sorting by industry puts Retail before Tech and keeps Acme before
      Cadence, which share "Tech". */
  method SortIndustry() returns (shown: seq<Company>)
    ensures shown == [BallCo(), Acme(), Cadence()]
  {
    var app := new App();
    app.OnData(Catalog());
    app.HandleSort("industry");
    CatalogByIndustry();
    shown := app.CurrentCompanies();
  }

  /** Twelve companies make three pages; Next from page 1 gives 2, 3, 3. */
  method NextThreeTimes() returns (p1: int, p2: int, p3: int)
    ensures p1 == 2 && p2 == 3 && p3 == 3
  {
    var app := new App();
    app.OnData(seq(12, i => Company(i, "C", "X", "Y")));
    app.NextPage();
    p1 := app.currentPage;
    app.NextPage();
    p2 := app.currentPage;
    app.NextPage();
    p3 := app.currentPage;
  }

  lemma LowerZZ()
    ensures Text.ToLower("zz") == "zz"
  {
  }

  lemma CatalogMatchingNothing()
    ensures Matching(Catalog(), "zz") == []
  {
    forall c | c in Catalog() ensures !Matches(c, "zz") {
      NotIncludedPair(Text.ToLower(c.name), 'z', 'z');
      NotIncludedPair(Text.ToLower(c.location), 'z', 'z');
      NotIncludedPair(Text.ToLower(c.industry), 'z', 'z');
    }
    assert Catalog()[1..] == [BallCo(), Cadence()] && [BallCo(), Cadence()][1..] == [Cadence()];
  }

  /** With no results there are 0 pages: Next is enabled on page 1 and sets
      the page to 0; Prev then returns to page 1. */
  method NoResults() returns (pages: nat, afterNext: int, afterPrev: int)
    ensures pages == 0 && afterNext == 0 && afterPrev == 1
  {
    var app := new App();
    app.OnData(Catalog());
    LowerZZ();
    CatalogMatchingNothing();
    app.HandleSearch("zz");
    assert app.filtered == [];
    pages := app.PageCount();
    app.NextPage();
    afterNext := app.currentPage;
    app.PrevPage();
    afterPrev := app.currentPage;
  }

  /** A failed load shows its message and leaves no companies. */
  method LoadFails() returns (screen: Screen, loaded: seq<Company>)
    ensures screen == ErrorScreen("network unreachable") && loaded == []
  {
    var app := new App();
    app.Settle(LoadFailed("network unreachable"));
    screen := app.View();
    loaded := app.companies;
  }
}
