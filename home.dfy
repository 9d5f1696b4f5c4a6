/** The home page controller: the selected tournament, the loaded page of matches
    with its pagination, the standings table, the players and the active tab, and
    which collaborator reads each event issues and what each outcome writes. */
module Home {
  import opened Api

  /** pageSize: matches per page, never changed. */
  const PageSize: int := 20

  /** A read issued to the backend collaborator. */
  datatype Request =
    | GetTournaments
    | GetTournamentPlayers(tournamentId: string)
    | GetTournamentStandings(tournamentId: string)
    | GetTournamentMatches(tournamentId: string, page: int, pageSize: int)

  /** `matchesPagination?.total_pages || 1`: also 1 when the server reports 0 pages. */
  function TotalPagesShown(pagination: Option<PaginatedResponse>): (n: int)
    ensures n != 0
    ensures pagination.None? ==> n == 1
    ensures pagination.Some? && pagination.value.total_pages != 0 ==> n == pagination.value.total_pages
    ensures pagination.Some? && pagination.value.total_pages == 0 ==> n == 1
  {
    match pagination
    case None => 1
    case Some(p) => if p.total_pages != 0 then p.total_pages else 1
  }

  /** `userCreatedTournaments.some(t => t.id === selectedTournament)`. */
  function IsCreator(created: seq<Tournament>, selected: string): (b: bool)
    ensures b <==> exists i :: 0 <= i < |created| && created[i].id == selected
  {
    if created == [] then false
    else if created[0].id == selected then true
    else
      var b := IsCreator(created[1..], selected);
      assert b ==> exists i :: 0 <= i < |created| && created[i].id == selected by {
        if b {
          var i :| 0 <= i < |created[1..]| && created[1..][i].id == selected;
          assert created[i + 1].id == selected;
        }
      }
      b
  }

  /** The state of the Home component. */
  class HomePage {
    var activeTab: string
    var selectedTournament: string
    var tournament: Option<Tournament>
    var table: seq<PlayerStats>
    var players: seq<User>
    var tournaments: seq<Tournament>
    var userCreatedTournaments: seq<Tournament>
    var matches: seq<MatchResult>
    var matchesPagination: Option<PaginatedResponse>
    var currentPage: int
    const pageSize: int

    /** The invariants every handler keeps: the page size never changes, every
        tournament counts as created by the user, and the shown matches are the
        items of the stored page (both are replaced together). */
    ghost predicate Valid()
      reads this
    {
      && pageSize == PageSize
      && userCreatedTournaments == tournaments
      && matches == (if matchesPagination.Some? then matchesPagination.value.items else [])
    }

    constructor ()
      ensures Valid()
      ensures activeTab == "tournament" && selectedTournament == "" && tournament == None
      ensures table == [] && players == [] && tournaments == [] && userCreatedTournaments == []
      ensures matches == [] && matchesPagination == None
      ensures currentPage == 1 && pageSize == 20
    {
      activeTab := "tournament";
      selectedTournament := "";
      tournament := None;
      table := [];
      players := [];
      tournaments := [];
      userCreatedTournaments := [];
      matches := [];
      matchesPagination := None;
      currentPage := 1;
      pageSize := PageSize;
    }

    /** The totalPages passed to the match history. */
    function TotalPages(): int
      reads this
    {
      TotalPagesShown(matchesPagination)
    }

    /** The isTournamentCreator passed to the match history. */
    function IsTournamentCreator(): (b: bool)
      reads this
      ensures b <==> exists i :: 0 <= i < |userCreatedTournaments| && userCreatedTournaments[i].id == selectedTournament
    {
      IsCreator(userCreatedTournaments, selectedTournament)
    }

    /** initializeData, run once on mount with getTournaments' outcome. A failure is
        not caught: nothing is written. When the list is non-empty its first
        tournament is selected. effectDue says whether the selection changed, which
        makes React run the tournament-change effect. */
    method InitializeData(fetched: Fetch<seq<Tournament>>) returns (issued: seq<Request>, effectDue: bool)
      requires Valid()
      modifies this
      ensures Valid()
      ensures issued == [GetTournaments]
      ensures effectDue <==> selectedTournament != old(selectedTournament)
      ensures fetched.FetchFailed? ==>
        && tournaments == old(tournaments) && userCreatedTournaments == old(userCreatedTournaments)
        && selectedTournament == old(selectedTournament) && tournament == old(tournament)
      ensures fetched.Fetched? ==>
        && tournaments == fetched.value && userCreatedTournaments == fetched.value
        && (fetched.value != [] ==> selectedTournament == fetched.value[0].id && tournament == Some(fetched.value[0]))
        && (fetched.value == [] ==> selectedTournament == old(selectedTournament) && tournament == old(tournament))
      ensures activeTab == old(activeTab) && table == old(table) && players == old(players)
      ensures matches == old(matches) && matchesPagination == old(matchesPagination)
      ensures currentPage == old(currentPage)
    {
      issued := [GetTournaments];
      var previous := selectedTournament;
      if fetched.Fetched? {
        var list := fetched.value;
        tournaments := list;
        userCreatedTournaments := list;
        if |list| > 0 {
          selectedTournament := list[0].id;
          tournament := Some(list[0]);
        }
      }
      effectDue := selectedTournament != previous;
    }

    /** The tournament dropdown's onChange (setSelectedTournament). Only the
        selection changes: the page number is kept and the tournament record set
        by initializeData is not updated. */
    method SelectTournament(id: string) returns (effectDue: bool)
      requires Valid()
      modifies this
      ensures Valid()
      ensures selectedTournament == id
      ensures effectDue <==> id != old(selectedTournament)
      ensures currentPage == old(currentPage) && tournament == old(tournament)
      ensures activeTab == old(activeTab) && table == old(table) && players == old(players)
      ensures matches == old(matches) && matchesPagination == old(matchesPagination)
      ensures tournaments == old(tournaments) && userCreatedTournaments == old(userCreatedTournaments)
    {
      effectDue := id != selectedTournament;
      selectedTournament := id;
    }

    /** The effect on selectedTournament: players and standings are read one after
        the other, each in its own try block, so either failure leaves only its own
        field as it was. Nothing happens without a selection. */
    method TournamentChangeEffect(playersFetch: Fetch<seq<User>>, standingsFetch: Fetch<seq<PlayerStats>>)
      returns (issued: seq<Request>)
      requires Valid()
      modifies this
      ensures Valid()
      ensures selectedTournament == "" ==> issued == [] && players == old(players) && table == old(table)
      ensures selectedTournament != "" ==>
        issued == [GetTournamentPlayers(selectedTournament), GetTournamentStandings(selectedTournament)]
      ensures selectedTournament != "" && playersFetch.Fetched? ==> players == playersFetch.value
      ensures playersFetch.FetchFailed? ==> players == old(players)
      ensures selectedTournament != "" && standingsFetch.Fetched? ==> table == standingsFetch.value
      ensures standingsFetch.FetchFailed? ==> table == old(table)
      ensures selectedTournament == old(selectedTournament) && activeTab == old(activeTab)
      ensures matches == old(matches) && matchesPagination == old(matchesPagination)
      ensures currentPage == old(currentPage) && tournament == old(tournament)
      ensures tournaments == old(tournaments) && userCreatedTournaments == old(userCreatedTournaments)
    {
      issued := [];
      if selectedTournament != "" {
        issued := issued + [GetTournamentPlayers(selectedTournament)];
        if playersFetch.Fetched? {
          players := playersFetch.value;
        }
        issued := issued + [GetTournamentStandings(selectedTournament)];
        if standingsFetch.Fetched? {
          table := standingsFetch.value;
        }
      }
    }

    /** Stores a delivered page: the pagination and its items together. */
    method StorePage(page: PaginatedResponse)
      requires Valid()
      modifies this
      ensures Valid()
      ensures matchesPagination == Some(page) && matches == page.items
      ensures activeTab == old(activeTab) && selectedTournament == old(selectedTournament)
      ensures table == old(table) && players == old(players) && currentPage == old(currentPage)
      ensures tournament == old(tournament) && tournaments == old(tournaments)
      ensures userCreatedTournaments == old(userCreatedTournaments)
    {
      matchesPagination := Some(page);
      matches := page.items;
    }

    /** handleTabClick: the tab is always set. Only "tournament" refetches the
        standings and only "history" fetches the current page of matches, both only
        with a selected tournament; a failed read leaves the previous data. */
    method HandleTabClick(tabId: string, standingsFetch: Fetch<seq<PlayerStats>>, matchesFetch: Fetch<PaginatedResponse>)
      returns (issued: seq<Request>)
      requires Valid()
      modifies this
      ensures Valid()
      ensures activeTab == tabId
      ensures issued ==
        (if tabId == "tournament" && selectedTournament != "" then [GetTournamentStandings(selectedTournament)] else [])
        + (if tabId == "history" && selectedTournament != "" then [GetTournamentMatches(selectedTournament, currentPage, pageSize)] else [])
      ensures table == (if tabId == "tournament" && selectedTournament != "" && standingsFetch.Fetched?
                        then standingsFetch.value else old(table))
      ensures if tabId == "history" && selectedTournament != "" && matchesFetch.Fetched?
              then matchesPagination == Some(matchesFetch.value) && matches == matchesFetch.value.items
              else matchesPagination == old(matchesPagination) && matches == old(matches)
      ensures selectedTournament == old(selectedTournament) && currentPage == old(currentPage)
      ensures players == old(players) && tournament == old(tournament)
      ensures tournaments == old(tournaments) && userCreatedTournaments == old(userCreatedTournaments)
    {
      activeTab := tabId;
      issued := [];
      if tabId == "tournament" && selectedTournament != "" {
        issued := issued + [GetTournamentStandings(selectedTournament)];
        if standingsFetch.Fetched? {
          table := standingsFetch.value;
        }
      }
      if tabId == "history" && selectedTournament != "" {
        issued := issued + [GetTournamentMatches(selectedTournament, currentPage, pageSize)];
        if matchesFetch.Fetched? {
          StorePage(matchesFetch.value);
        }
      }
    }

    /** refreshMatches, the onMatchUpdated callback: the current page, then the
        standings, in one try block. A failed page read skips the standings read
        and changes nothing; a failed standings read keeps the new page. */
    method RefreshMatches(matchesFetch: Fetch<PaginatedResponse>, standingsFetch: Fetch<seq<PlayerStats>>)
      returns (issued: seq<Request>)
      requires Valid()
      modifies this
      ensures Valid()
      ensures selectedTournament == "" ==>
        issued == [] && matchesPagination == old(matchesPagination) && matches == old(matches) && table == old(table)
      ensures selectedTournament != "" && matchesFetch.FetchFailed? ==>
        && issued == [GetTournamentMatches(selectedTournament, currentPage, pageSize)]
        && matchesPagination == old(matchesPagination) && matches == old(matches) && table == old(table)
      ensures selectedTournament != "" && matchesFetch.Fetched? ==>
        && issued == [GetTournamentMatches(selectedTournament, currentPage, pageSize), GetTournamentStandings(selectedTournament)]
        && matchesPagination == Some(matchesFetch.value) && matches == matchesFetch.value.items
        && table == (if standingsFetch.Fetched? then standingsFetch.value else old(table))
      ensures activeTab == old(activeTab) && selectedTournament == old(selectedTournament)
      ensures currentPage == old(currentPage) && players == old(players) && tournament == old(tournament)
      ensures tournaments == old(tournaments) && userCreatedTournaments == old(userCreatedTournaments)
    {
      issued := [];
      if selectedTournament != "" {
        issued := issued + [GetTournamentMatches(selectedTournament, currentPage, pageSize)];
        match matchesFetch
        case FetchFailed =>
        case Fetched(page) =>
          StorePage(page);
          issued := issued + [GetTournamentStandings(selectedTournament)];
          if standingsFetch.Fetched? {
            table := standingsFetch.value;
          }
      }
    }

    /** handlePageChange: with a selected tournament the page number is set before
        the read, so it stays set when the read fails; a delivered page replaces
        the pagination and the matches together. */
    method HandlePageChange(newPage: int, matchesFetch: Fetch<PaginatedResponse>) returns (issued: seq<Request>)
      requires Valid()
      modifies this
      ensures Valid()
      ensures selectedTournament == "" ==>
        issued == [] && currentPage == old(currentPage)
        && matchesPagination == old(matchesPagination) && matches == old(matches)
      ensures selectedTournament != "" ==>
        issued == [GetTournamentMatches(selectedTournament, newPage, pageSize)] && currentPage == newPage
      ensures selectedTournament != "" && matchesFetch.Fetched? ==>
        matchesPagination == Some(matchesFetch.value) && matches == matchesFetch.value.items
      ensures matchesFetch.FetchFailed? ==> matchesPagination == old(matchesPagination) && matches == old(matches)
      ensures activeTab == old(activeTab) && selectedTournament == old(selectedTournament)
      ensures table == old(table) && players == old(players) && tournament == old(tournament)
      ensures tournaments == old(tournaments) && userCreatedTournaments == old(userCreatedTournaments)
    {
      issued := [];
      if selectedTournament != "" {
        currentPage := newPage;
        issued := [GetTournamentMatches(selectedTournament, newPage, pageSize)];
        if matchesFetch.Fetched? {
          StorePage(matchesFetch.value);
        }
      }
    }

    /** LogMatch's onMatchLogged: exactly handleTabClick("history"). */
    method OnMatchLogged(matchesFetch: Fetch<PaginatedResponse>) returns (issued: seq<Request>)
      requires Valid()
      modifies this
      ensures Valid()
      ensures activeTab == "history"
      ensures issued == if selectedTournament != "" then [GetTournamentMatches(selectedTournament, currentPage, pageSize)] else []
      ensures if selectedTournament != "" && matchesFetch.Fetched?
              then matchesPagination == Some(matchesFetch.value) && matches == matchesFetch.value.items
              else matchesPagination == old(matchesPagination) && matches == old(matches)
      ensures table == old(table) && selectedTournament == old(selectedTournament) && currentPage == old(currentPage)
      ensures players == old(players) && tournament == old(tournament)
      ensures tournaments == old(tournaments) && userCreatedTournaments == old(userCreatedTournaments)
    {
      issued := HandleTabClick("history", FetchFailed, matchesFetch);
    }
  }
}
