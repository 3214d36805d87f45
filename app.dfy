/** The `App` component: its state fields, the two outcomes of the one-shot
    load, the search and sort handlers, and the Prev/Next pagination. Each
    React setter is a plain assignment to the field it sets. */
module Directory {
  import opened Text
  import opened Companies
  import opened Search
  import opened Sorting
  import opened Pagination

  /** What the component renders: the loading text, the error text, or the
      directory with its controls. */
  datatype Screen = LoadingScreen | ErrorScreen(message: string) | DirectoryScreen

  /** `.then((data) => ...)` or `.catch((err) => ...)` of the fetch. */
  datatype LoadOutcome = Loaded(data: seq<Company>) | LoadFailed(message: string)

  class App {
    var companies: seq<Company>
    var filtered: seq<Company>
    var search: string
    var sortBy: string
    var loading: bool
    var error: string
    var currentPage: int

    /** What holds between events:
        - `filtered` holds exactly the companies that match `search`, in
          some order (the search order, or the order of the last sort);
        - `search` is stored lowered;
        - until the load settles every field keeps its initial value;
        - a failed load leaves no companies;
        - the page is at most the page count (or 1), and page 0 occurs only
          with no results. */
    ghost predicate Valid()
      reads this
      ensures Valid() && loading ==> View() == LoadingScreen && filtered == []
    {
      && multiset(filtered) == multiset(Matching(companies, search))
      && search == ToLower(search)
      && (loading ==>
            companies == [] && filtered == [] && search == "" && sortBy == "" &&
            error == "" && currentPage == 1)
      && (error != "" ==> companies == [])
      && 0 <= currentPage <= Max(1, TotalPages(|filtered|))
      && (currentPage == 0 ==> filtered == [])
    }

    /** The `useState` initial values. */
    constructor ()
      ensures Valid()
      ensures companies == [] && filtered == [] && search == "" && sortBy == ""
      ensures loading && error == "" && currentPage == 1
      ensures View() == LoadingScreen
    {
      companies := [];
      filtered := [];
      search := "";
      sortBy := "";
      loading := true;
      error := "";
      currentPage := 1;
    }

    /** The early returns of the render: `if (loading)`, then `if (error)`,
        where an empty message counts as no error. */
    function View(): (v: Screen)
      reads this
      ensures v == LoadingScreen <==> loading
      ensures v.ErrorScreen? <==> !loading && error != ""
      ensures v.ErrorScreen? ==> v.message == error
    {
      if loading then LoadingScreen
      else if error != "" then ErrorScreen(error)
      else DirectoryScreen
    }

    /** `totalPages` of the current render. */
    function PageCount(): (n: nat)
      reads this
      ensures n * PerPage >= |filtered| && (n == 0 || (n - 1) * PerPage < |filtered|)
    {
      TotalPages(|filtered|)
    }

    /** `currentCompanies`: at most one page of `filtered`, a contiguous slice
        of it starting at record `(currentPage - 1) * 5`. */
    function CurrentCompanies(): (r: seq<Company>)
      reads this
      ensures |r| <= PerPage
      ensures currentPage >= 1 ==>
        r == if (currentPage - 1) * PerPage < |filtered|
             then filtered[(currentPage - 1) * PerPage .. Min(currentPage * PerPage, |filtered|)]
             else []
    {
      Window(filtered, currentPage)
    }

    /** In every reachable state the page shown is empty only when there
        are no results at all. */
    lemma ShownPageNonEmpty()
      requires Valid()
      ensures CurrentCompanies() == [] <==> filtered == []
    {
      if filtered != [] {
        WindowNonEmpty(filtered, currentPage);
      }
    }

    /** The fetch delivered `data`. */
    method OnData(data: seq<Company>)
      requires Valid() && loading
      modifies this
      ensures Valid()
      ensures companies == data && filtered == data && !loading
      ensures error == old(error) == "" && View() == DirectoryScreen
      ensures search == old(search) && sortBy == old(sortBy) && currentPage == old(currentPage)
    {
      MatchingEmptyTerm(data);
      companies := data;
      filtered := data;
      loading := false;
    }

    /** The fetch failed with `message`. */
    method OnError(message: string)
      requires Valid() && loading
      modifies this
      ensures Valid()
      ensures error == message && !loading
      ensures View() == if message == "" then DirectoryScreen else ErrorScreen(message)
      ensures companies == old(companies) == [] && filtered == old(filtered) == []
      ensures search == old(search) && sortBy == old(sortBy) && currentPage == old(currentPage)
    {
      error := message;
      loading := false;
    }

    /** Settles the load with whichever outcome the fetch produced. */
    method Settle(outcome: LoadOutcome)
      requires Valid() && loading
      modifies this
      ensures Valid() && !loading
      ensures outcome.Loaded? ==> companies == filtered == outcome.data && error == ""
      ensures outcome.LoadFailed? ==> companies == [] && filtered == [] && error == outcome.message
      ensures search == old(search) && sortBy == old(sortBy) && currentPage == old(currentPage)
    {
      match outcome
      case Loaded(data) => OnData(data);
      case LoadFailed(message) => OnError(message);
    }

    /** `handleSearch`: lowers the input, stores it, filters the whole
        catalogue by it and goes back to page 1. */
    method HandleSearch(input: string)
      requires Valid() && View() == DirectoryScreen
      modifies this
      ensures Valid() && View() == DirectoryScreen
      ensures search == ToLower(input)
      ensures filtered == Matching(companies, ToLower(input))
      ensures currentPage == 1
      ensures companies == old(companies) && sortBy == old(sortBy)
      ensures loading == old(loading) && error == old(error)
    {
      var value := ToLower(input);
      ToLowerIdempotent(input);
      search := value;
      var filteredData := Matching(companies, value);
      filtered := filteredData;
      currentPage := 1;
    }

    /** `handleSort`: stores the selector value, copies `filtered`, sorts the
        copy in place for "name" or "industry" and stores it. */
    method HandleSort(sortType: string)
      requires Valid() && View() == DirectoryScreen
      modifies this
      ensures Valid() && View() == DirectoryScreen
      ensures sortBy == sortType
      ensures filtered == ApplySort(old(filtered), sortType)
      ensures companies == old(companies) && search == old(search) && currentPage == old(currentPage)
      ensures loading == old(loading) && error == old(error)
    {
      sortBy := sortType;
      var sorted := SortedCopy(filtered, sortType);
      ApplySortSpec(filtered, sortType);
      filtered := sorted;
    }

    /** `nextPage`. */
    method NextPage()
      requires Valid() && View() == DirectoryScreen
      modifies this
      ensures Valid() && View() == DirectoryScreen
      ensures currentPage == Next(old(currentPage), TotalPages(|filtered|))
      ensures companies == old(companies) && filtered == old(filtered) && search == old(search)
      ensures sortBy == old(sortBy) && loading == old(loading) && error == old(error)
    {
      currentPage := Next(currentPage, TotalPages(|filtered|));
    }

    /** `prevPage`. */
    method PrevPage()
      requires Valid() && View() == DirectoryScreen
      modifies this
      ensures Valid() && View() == DirectoryScreen
      ensures currentPage == Prev(old(currentPage))
      ensures companies == old(companies) && filtered == old(filtered) && search == old(search)
      ensures sortBy == old(sortBy) && loading == old(loading) && error == old(error)
    {
      currentPage := Prev(currentPage);
    }
  }
}
