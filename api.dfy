/** Records exchanged with the backend collaborator, restricted to the fields the
    match-history page, the home page and the standings table read, plus the shapes
    of the outcomes of the collaborator calls they await. */
module Api {

  datatype Option<+T> = None | Some(value: T)

  /** Outcome of an awaited read: the delivered value, or a rejected promise. */
  datatype Fetch<+T> = Fetched(value: T) | FetchFailed

  /** Outcome of an awaited mutation (updateMatch, deleteMatch). */
  datatype Outcome = Succeeded | Failed

  /** Stands for the calendar-day key of a match date; a larger key is a later day. */
  type DayKey = int

  datatype MatchResult = MatchResult(
    id: string,
    player1_name: string,
    player2_name: string,
    player1_goals: int,
    player2_goals: int,
    half_length: int,
    day: DayKey)

  /** A standings entry as the ranking collaborator delivers it. An absent
      first_name is the empty string. */
  datatype PlayerStats = PlayerStats(
    id: string,
    username: string,
    first_name: string,
    total_matches: int,
    wins: int,
    draws: int,
    losses: int,
    total_goals_scored: int,
    total_goals_conceded: int,
    goal_difference: int,
    points: int)

  datatype Tournament = Tournament(id: string, name: string, completed: bool)

  datatype User = User(id: string, username: string, first_name: string)

  /** One page of matches with the server's page count. */
  datatype PaginatedResponse = PaginatedResponse(items: seq<MatchResult>, total_pages: int)
}
