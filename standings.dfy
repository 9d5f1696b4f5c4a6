/** The standings table: one row per delivered standings entry, in the delivered
    order, with the position, the leader's mark, the player's name and the
    goal difference with its sign. */
module TournamentStandings {
  import opened Api

  // ---------------------------------------------------------------------------
  // Decimal text of integers, as a number renders in the page
  // ---------------------------------------------------------------------------

  predicate IsDigit(c: char)
  {
    '0' <= c <= '9'
  }

  function DigitChar(d: int): (c: char)
    requires 0 <= d < 10
    ensures IsDigit(c)
  {
    ('0' as int + d) as char
  }

  function DigitValue(c: char): (d: int)
    requires IsDigit(c)
    ensures 0 <= d < 10
  {
    c as int - '0' as int
  }

  /** The decimal digits of n, without leading zeros. */
  function NatText(n: nat): (s: string)
    ensures |s| >= 1
    ensures forall i :: 0 <= i < |s| ==> IsDigit(s[i])
    ensures s[0] == '0' ==> n == 0
  {
    if n < 10 then [DigitChar(n)] else NatText(n / 10) + [DigitChar(n % 10)]
  }

  /** The value of a string of decimal digits. */
  function DigitsValue(s: string): nat
    requires forall i :: 0 <= i < |s| ==> IsDigit(s[i])
  {
    if s == [] then 0 else DigitsValue(s[..|s| - 1]) * 10 + DigitValue(s[|s| - 1])
  }

  lemma {:induction false} NatTextRoundTrip(n: nat)
    ensures DigitsValue(NatText(n)) == n
  {
    if n >= 10 {
      var s := NatText(n);
      assert s[..|s| - 1] == NatText(n / 10);
      NatTextRoundTrip(n / 10);
    }
  }

  /** An integer as text: a minus sign before the digits of a negative value. */
  function IntText(n: int): string
  {
    if n < 0 then "-" + NatText(-n) else NatText(n)
  }

  /** The goal-difference cell: a "+" before a value that is at least zero, and the
      value's own text after it. */
  function GoalDifferenceText(gd: int): (s: string)
    ensures |s| >= 2
    ensures s[0] == '+' <==> gd >= 0
    ensures s[0] == '-' <==> gd < 0
  {
    (if gd >= 0 then "+" else "") + IntText(gd)
  }

  /** Reads a signed cell back; None when it is not a sign followed by digits. */
  function ParseSigned(s: string): Option<int>
  {
    if |s| >= 2 && (s[0] == '+' || s[0] == '-') && forall i :: 1 <= i < |s| ==> IsDigit(s[i]) then
      var v: int := DigitsValue(s[1..]);
      Some(if s[0] == '+' then v else -v)
    else None
  }

  /** The cell shows exactly the goal difference: reading it back gives the value. */
  lemma GoalDifferenceRoundTrip(gd: int)
    ensures ParseSigned(GoalDifferenceText(gd)) == Some(gd)
  {
    var digits := if gd >= 0 then NatText(gd) else NatText(-gd);
    NatTextRoundTrip(if gd >= 0 then gd else -gd);
    var s := GoalDifferenceText(gd);
    assert s == [s[0]] + digits;
    assert s[1..] == digits;
  }

  lemma ZeroGoalDifferenceText()
    ensures GoalDifferenceText(0) == "+0"
  {
  }

  // ---------------------------------------------------------------------------
  // The rows
  // ---------------------------------------------------------------------------

  /** `player.first_name || player.username`. */
  function DisplayName(p: PlayerStats): (name: string)
    ensures p.first_name != "" ==> name == p.first_name
    ensures p.first_name == "" ==> name == p.username
  {
    if p.first_name != "" then p.first_name else p.username
  }

  /** One table row: the key, the position, whether the row is the leader's
      (trophy, highlight and bold position), the name and the columns. */
  datatype StandingsRow = StandingsRow(
    key: string,
    position: int,
    leader: bool,
    name: string,
    played: int,
    wins: int,
    draws: int,
    losses: int,
    goalsFor: int,
    goalsAgainst: int,
    goalDifference: string,
    goalDifferenceGreen: bool,
    points: int)

  function Row(p: PlayerStats, index: nat): StandingsRow
  {
    StandingsRow(
      p.id, index + 1, index == 0, DisplayName(p),
      p.total_matches, p.wins, p.draws, p.losses,
      p.total_goals_scored, p.total_goals_conceded,
      GoalDifferenceText(p.goal_difference), p.goal_difference >= 0,
      p.points)
  }

  /** `standings.map((player, index) => <tr>...)`: one row per entry, in the
      delivered order, with no re-sorting. */
  function StandingsRows(standings: seq<PlayerStats>): (rows: seq<StandingsRow>)
    ensures |rows| == |standings|
    ensures forall i :: 0 <= i < |rows| ==>
      && rows[i].key == standings[i].id
      && rows[i].position == i + 1
      && (rows[i].leader <==> i == 0)
      && rows[i].name == DisplayName(standings[i])
      && rows[i].played == standings[i].total_matches
      && rows[i].wins == standings[i].wins
      && rows[i].draws == standings[i].draws
      && rows[i].losses == standings[i].losses
      && rows[i].goalsFor == standings[i].total_goals_scored
      && rows[i].goalsAgainst == standings[i].total_goals_conceded
      && ParseSigned(rows[i].goalDifference) == Some(standings[i].goal_difference)
      && (rows[i].goalDifference[0] == '+' <==> standings[i].goal_difference >= 0)
      && (rows[i].goalDifferenceGreen <==> standings[i].goal_difference >= 0)
      && rows[i].points == standings[i].points
  {
    var rows := seq(|standings|, i requires 0 <= i < |standings| => Row(standings[i], i));
    assert forall i :: 0 <= i < |rows| ==> ParseSigned(rows[i].goalDifference) == Some(standings[i].goal_difference) by {
      forall i | 0 <= i < |rows| ensures ParseSigned(rows[i].goalDifference) == Some(standings[i].goal_difference) {
        GoalDifferenceRoundTrip(standings[i].goal_difference);
      }
    }
    rows
  }

  function LeaderCount(rows: seq<StandingsRow>): nat
  {
    if rows == [] then 0 else (if rows[0].leader then 1 else 0) + LeaderCount(rows[1..])
  }

  lemma {:induction false} NoLeaderAfterFirst(rows: seq<StandingsRow>)
    requires forall i :: 0 <= i < |rows| ==> !rows[i].leader
    ensures LeaderCount(rows) == 0
  {
    if rows != [] {
      NoLeaderAfterFirst(rows[1..]);
    }
  }

  /** A non-empty table marks exactly one leader; an empty table marks none. */
  lemma ExactlyOneLeader(standings: seq<PlayerStats>)
    ensures LeaderCount(StandingsRows(standings)) == if standings == [] then 0 else 1
  {
    var rows := StandingsRows(standings);
    if rows != [] {
      NoLeaderAfterFirst(rows[1..]);
    }
  }

  /** Rank is positional: an entry keeps its delivered place even when a later
      entry has more points. */
  lemma NoLocalResorting(a: PlayerStats, b: PlayerStats)
    requires a.points < b.points
    ensures StandingsRows([a, b])[0].key == a.id && StandingsRows([a, b])[0].leader
    ensures StandingsRows([a, b])[1].key == b.id && StandingsRows([a, b])[1].position == 2
  {
  }
}
