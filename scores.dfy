/** The score table and the submit operation.

    The table is a map from canonical player name to that player's row. A
    submission names a player, a raw time and a difficulty level; an unknown
    level is rejected before the table is read, otherwise the player's row is
    created or its running means are brought up to date. Averages are exact
    reals, game counts naturals. */
module Scores {
  import opened Wrappers
  import opened PlayerName

  datatype Level = Easy | Medium | Hard

  /** The spelling of a level in a request and in the row's column names. */
  function LevelName(l: Level): string {
    match l
    case Easy => "easy"
    case Medium => "medium"
    case Hard => "hard"
  }

  /** The lookup in the multiplier dictionary (app.py line 26): exact,
      case-sensitive match of one of the three level names. */
  function ParseLevel(s: string): (r: Option<Level>)
    ensures r.Some? <==> (s == "easy" || s == "medium" || s == "hard")
    ensures r.Some? ==> LevelName(r.value) == s
  {
    if s == "easy" then Some(Easy)
    else if s == "medium" then Some(Medium)
    else if s == "hard" then Some(Hard)
    else None
  }

  /** The difficulty multiplier applied to the raw time for the overall average. */
  function Multiplier(l: Level): real {
    match l
    case Easy => 1.5
    case Medium => 1.0
    case Hard => 0.5
  }

  /** Parsing a level's own name gives the level back, so levels and their
      names are in one-to-one correspondence. */
  lemma ParseLevelName(l: Level)
    ensures ParseLevel(LevelName(l)) == Some(l)
  {
  }

  /** The multiplier table: easy 1.5, medium 1.0, hard 0.5. Medium is the
      neutral level, easy times count for more, hard times for less. */
  lemma MultiplierOrder()
    ensures Multiplier(Easy) == 1.5 && Multiplier(Medium) == 1.0 && Multiplier(Hard) == 0.5
    ensures 0.0 < Multiplier(Hard) < Multiplier(Medium) < Multiplier(Easy)
  {
  }

  /** The time that enters the overall average (app.py line 30). */
  function AdjustedTime(time: real, l: Level): real {
    time * Multiplier(l)
  }

  /** A running mean and the number of values it is the mean of. */
  datatype Stats = Stats(avg: real, games: nat)

  /** One row of the table. `overallAvg` is None when the column is missing or
      null, which the leaderboard tolerates; the other columns are always present. */
  datatype Record = Record(
    name: string,
    overallAvg: Option<real>,
    overallGames: nat,
    easy: Stats,
    medium: Stats,
    hard: Stats)

  /** The `<level>_avg` and `<level>_games` columns of a row. */
  function LevelStats(r: Record, l: Level): Stats {
    match l
    case Easy => r.easy
    case Medium => r.medium
    case Hard => r.hard
  }

  /** A row with one level's columns replaced and every other column kept. */
  function WithLevelStats(r: Record, l: Level, s: Stats): (r': Record)
    ensures LevelStats(r', l) == s
    ensures forall m :: m != l ==> LevelStats(r', m) == LevelStats(r, m)
    ensures r'.name == r.name && r'.overallAvg == r.overallAvg && r'.overallGames == r.overallGames
  {
    match l
    case Easy => r.(easy := s)
    case Medium => r.(medium := s)
    case Hard => r.(hard := s)
  }

  /** The incremental mean update `(avg * n + x) / (n + 1)` (app.py lines 53
      and 58): the new mean times the new count is the old total plus `x`. */
  function RunningMean(avg: real, n: nat, x: real): (m: real)
    ensures m * ((n + 1) as real) == avg * (n as real) + x
  {
    (avg * (n as real) + x) / ((n + 1) as real)
  }

  /** The row inserted for a player seen for the first time (app.py lines 38-48). */
  function FreshRecord(name: string, l: Level, time: real): Record {
    Record(name, Some(AdjustedTime(time, l)), 1,
           FirstStats(l, Easy, time), FirstStats(l, Medium, time), FirstStats(l, Hard, time))
  }

  /** The columns of level `m` after a first game played at level `l`. */
  function FirstStats(l: Level, m: Level, time: real): Stats {
    if m == l then Stats(time, 1) else Stats(0.0, 0)
  }

  /** The update of an existing row (app.py lines 52-66): the overall columns take
      the adjusted time, the submitted level's columns the raw time, the other
      levels are not written. A null `overall_avg` makes the multiplication
      fail, which is None here. */
  function UpdatedRecord(p: Record, name: string, l: Level, time: real): Option<Record> {
    match p.overallAvg
    case None => None
    case Some(avg) =>
      var s := LevelStats(p, l);
      var overall := p.(name := name,
                        overallAvg := Some(RunningMean(avg, p.overallGames, AdjustedTime(time, l))),
                        overallGames := p.overallGames + 1);
      Some(WithLevelStats(overall, l, Stats(RunningMean(s.avg, s.games, time), s.games + 1)))
  }

  /** What the submit endpoint answers: 200 "Submission received", 400 "Invalid
      level", or the server failure raised by a row whose overall average is null. */
  datatype Response = Received | InvalidLevel | ServerError

  /** The whole submit operation on the table (app.py lines 19-68): the response
      and the table afterwards. */
  function Submission(table: map<string, Record>, rawName: string, time: real, level: string)
    : (Response, map<string, Record>)
  {
    var name := Canonical(rawName);
    match ParseLevel(level)
    case None => (InvalidLevel, table)
    case Some(l) =>
      if name !in table then
        (Received, table[name := FreshRecord(name, l, time)])
      else
        match UpdatedRecord(table[name], name, l, time)
        case None => (ServerError, table)
        case Some(r) => (Received, table[name := r])
  }

  /** A level other than exactly "easy", "medium" or "hard" is answered with
      InvalidLevel and leaves the table as it was; no valid level is. */
  lemma SubmitRejectsUnknownLevel(table: map<string, Record>, rawName: string, time: real, level: string)
    ensures Submission(table, rawName, time, level).0 == InvalidLevel
            <==> !(level == "easy" || level == "medium" || level == "hard")
    ensures Submission(table, rawName, time, level).0 == InvalidLevel
            ==> Submission(table, rawName, time, level).1 == table
  {
  }

  /** A player not yet in the table gets a row with one game: the overall mean
      is the adjusted time, the submitted level has one game whose mean is the
      raw time, and the other two levels have no games and mean 0. */
  lemma SubmitNewPlayer(table: map<string, Record>, rawName: string, time: real, level: string)
    requires ParseLevel(level).Some?
    requires Canonical(rawName) !in table
    ensures var name, l := Canonical(rawName), ParseLevel(level).value;
      var (resp, table') := Submission(table, rawName, time, level);
      && resp == Received
      && table'.Keys == table.Keys + {name}
      && table'[name].name == name
      && table'[name].overallAvg == Some(time * Multiplier(l))
      && table'[name].overallGames == 1
      && LevelStats(table'[name], l) == Stats(time, 1)
      && forall m :: m != l ==> LevelStats(table'[name], m) == Stats(0.0, 0)
  {
  }

  /** A player already in the table plays one more game: the overall count and
      the submitted level's count go up by one, both means follow the
      running-mean formula (the overall one with the adjusted time, the level
      one with the raw time), and the other two levels are untouched. */
  lemma SubmitExistingPlayer(table: map<string, Record>, rawName: string, time: real, level: string)
    requires ParseLevel(level).Some?
    requires Canonical(rawName) in table
    requires table[Canonical(rawName)].overallAvg.Some?
    ensures var name, l := Canonical(rawName), ParseLevel(level).value;
      var p := table[name];
      var (resp, table') := Submission(table, rawName, time, level);
      && resp == Received
      && table'.Keys == table.Keys
      && table'[name].name == name
      && table'[name].overallGames == p.overallGames + 1
      && table'[name].overallAvg.Some?
      && table'[name].overallAvg.value * (table'[name].overallGames as real)
         == p.overallAvg.value * (p.overallGames as real) + time * Multiplier(l)
      && LevelStats(table'[name], l).games == LevelStats(p, l).games + 1
      && LevelStats(table'[name], l).avg * (LevelStats(table'[name], l).games as real)
         == LevelStats(p, l).avg * (LevelStats(p, l).games as real) + time
      && forall m :: m != l ==> LevelStats(table'[name], m) == LevelStats(p, m)
  {
    var name, l := Canonical(rawName), ParseLevel(level).value;
    var p := table[name];
    var s := LevelStats(p, l);
    var avg := RunningMean(p.overallAvg.value, p.overallGames, AdjustedTime(time, l));
    assert avg * ((p.overallGames + 1) as real) == p.overallAvg.value * (p.overallGames as real) + time * Multiplier(l);
    var lavg := RunningMean(s.avg, s.games, time);
    assert lavg * ((s.games + 1) as real) == s.avg * (s.games as real) + time;
    var r := WithLevelStats(p.(name := name, overallAvg := Some(avg), overallGames := p.overallGames + 1),
                            l, Stats(lavg, s.games + 1));
    assert UpdatedRecord(p, name, l, time) == Some(r);
    assert Submission(table, rawName, time, level) == (Received, table[name := r]);
    assert table[name := r][name] == r;
    assert r.overallAvg == Some(avg) && r.overallGames == p.overallGames + 1;
    assert LevelStats(r, l) == Stats(lavg, s.games + 1);
  }

  /** An existing row whose overall average is null makes the submission fail
      without writing anything. */
  lemma SubmitNullAverage(table: map<string, Record>, rawName: string, time: real, level: string)
    requires ParseLevel(level).Some?
    requires Canonical(rawName) in table
    requires table[Canonical(rawName)].overallAvg.None?
    ensures Submission(table, rawName, time, level) == (ServerError, table)
  {
  }

  /** Only the row keyed by the canonical name can change: every other key is
      present afterwards exactly when it was before, with the same row, and a
      received submission leaves its own key present. */
  lemma SubmitFrame(table: map<string, Record>, rawName: string, time: real, level: string)
    ensures var (resp, table') := Submission(table, rawName, time, level);
      && (resp == Received ==> Canonical(rawName) in table' && table'.Keys == table.Keys + {Canonical(rawName)})
      && (resp != Received ==> table' == table)
      && forall k :: k != Canonical(rawName) ==> (k in table' <==> k in table) && (k in table ==> table'[k] == table[k])
  {
    var name := Canonical(rawName);
    match ParseLevel(level)
    case None =>
    case Some(l) =>
      if name !in table {
        assert Submission(table, rawName, time, level).1 == table[name := FreshRecord(name, l, time)];
      } else {
        match UpdatedRecord(table[name], name, l, time)
        case None =>
        case Some(r) =>
          assert Submission(table, rawName, time, level).1 == table[name := r];
      }
  }

  /** The bookkeeping invariant of a row: the overall count is the sum of the
      three level counts. */
  predicate GamesConsistent(r: Record) {
    r.overallGames == r.easy.games + r.medium.games + r.hard.games
  }

  /** Every row is stored under its own name. */
  predicate KeysNamed(table: map<string, Record>) {
    forall k :: k in table ==> table[k].name == k
  }

  predicate AllConsistent(table: map<string, Record>) {
    forall k :: k in table ==> GamesConsistent(table[k])
  }

  /** Submit preserves the bookkeeping invariant of every row, and keeps each
      row stored under its own name. */
  lemma SubmitKeepsInvariants(table: map<string, Record>, rawName: string, time: real, level: string)
    requires AllConsistent(table) && KeysNamed(table)
    ensures AllConsistent(Submission(table, rawName, time, level).1)
    ensures KeysNamed(Submission(table, rawName, time, level).1)
  {
    var name := Canonical(rawName);
    var table' := Submission(table, rawName, time, level).1;
    forall k | k in table'
      ensures GamesConsistent(table'[k]) && table'[k].name == k
    {
      if k == name && ParseLevel(level).Some? && name in table {
        var l := ParseLevel(level).value;
        assert GamesConsistent(table[name]);
        match UpdatedRecord(table[name], name, l, time)
        case None =>
        case Some(r) =>
          assert r.overallGames == table[name].overallGames + 1;
          assert LevelStats(r, l).games == LevelStats(table[name], l).games + 1;
      }
    }
  }

  /** One accepted submission as remembered by the history of a player. */
  datatype Play = Play(level: Level, time: real)

  function TotalAdjusted(ps: seq<Play>): real {
    if ps == [] then 0.0
    else TotalAdjusted(ps[..|ps| - 1]) + AdjustedTime(ps[|ps| - 1].time, ps[|ps| - 1].level)
  }

  function CountAt(ps: seq<Play>, l: Level): nat {
    if ps == [] then 0
    else CountAt(ps[..|ps| - 1], l) + (if ps[|ps| - 1].level == l then 1 else 0)
  }

  function TotalAt(ps: seq<Play>, l: Level): real {
    if ps == [] then 0.0
    else TotalAt(ps[..|ps| - 1], l) + (if ps[|ps| - 1].level == l then ps[|ps| - 1].time else 0.0)
  }

  /** Level columns that are exactly the mean and count of the raw times played
      at that level; a level never played has mean 0. */
  predicate LevelTracks(s: Stats, ps: seq<Play>, l: Level) {
    && s.games == CountAt(ps, l)
    && s.avg * (s.games as real) == TotalAt(ps, l)
    && (s.games == 0 ==> s.avg == 0.0)
  }

  /** A row that is exactly the summary of a non-empty history of plays: the
      overall count is the number of plays and the overall mean times it is
      the sum of the adjusted times; each level likewise with raw times. */
  predicate Tracks(r: Record, ps: seq<Play>) {
    && ps != []
    && r.overallGames == |ps|
    && r.overallAvg.Some?
    && r.overallAvg.value * (|ps| as real) == TotalAdjusted(ps)
    && LevelTracks(r.easy, ps, Easy)
    && LevelTracks(r.medium, ps, Medium)
    && LevelTracks(r.hard, ps, Hard)
  }

  /** Every play is at exactly one level. */
  lemma {:induction false} CountsSplit(ps: seq<Play>)
    ensures |ps| == CountAt(ps, Easy) + CountAt(ps, Medium) + CountAt(ps, Hard)
  {
    if ps != [] {
      CountsSplit(ps[..|ps| - 1]);
    }
  }

  /** A row that summarises its history keeps the bookkeeping invariant. */
  lemma TracksConsistent(r: Record, ps: seq<Play>)
    requires Tracks(r, ps)
    ensures GamesConsistent(r)
  {
    CountsSplit(ps);
  }

  /** The history functions read one more play off the end. */
  lemma HistoryAppend(ps: seq<Play>, p: Play)
    ensures TotalAdjusted(ps + [p]) == TotalAdjusted(ps) + AdjustedTime(p.time, p.level)
    ensures forall l :: CountAt(ps + [p], l) == CountAt(ps, l) + (if p.level == l then 1 else 0)
    ensures forall l :: TotalAt(ps + [p], l) == TotalAt(ps, l) + (if p.level == l then p.time else 0.0)
  {
    assert (ps + [p])[..|ps|] == ps;
  }

  /** A first submission creates a row that summarises the one-play history. */
  lemma FreshTracks(name: string, l: Level, time: real)
    ensures Tracks(FreshRecord(name, l, time), [Play(l, time)])
  {
    HistoryAppend([], Play(l, time));
  }

  /** The running-mean step on one level's columns keeps them the summary of
      the history extended by a play at that level. */
  lemma LevelStep(s: Stats, ps: seq<Play>, l: Level, time: real)
    requires LevelTracks(s, ps, l)
    ensures LevelTracks(Stats(RunningMean(s.avg, s.games, time), s.games + 1), ps + [Play(l, time)], l)
  {
    HistoryAppend(ps, Play(l, time));
  }

  /** Columns of a level not played are still the summary after another play. */
  lemma LevelUntouched(s: Stats, ps: seq<Play>, l: Level, m: Level, time: real)
    requires LevelTracks(s, ps, m) && m != l
    ensures LevelTracks(s, ps + [Play(l, time)], m)
  {
    HistoryAppend(ps, Play(l, time));
  }

  /** The running-mean step on the overall columns keeps them the summary of
      the history extended by one play, counted with its adjusted time. */
  lemma OverallStep(avg: real, ps: seq<Play>, l: Level, time: real)
    requires avg * (|ps| as real) == TotalAdjusted(ps)
    ensures RunningMean(avg, |ps|, AdjustedTime(time, l)) * (|ps + [Play(l, time)]| as real)
            == TotalAdjusted(ps + [Play(l, time)])
  {
    var n, x := |ps|, AdjustedTime(time, l);
    var m := RunningMean(avg, n, x);
    calc {
      m * (|ps + [Play(l, time)]| as real);
      m * ((n + 1) as real);
      avg * (n as real) + x;
      TotalAdjusted(ps) + x;
      { HistoryAppend(ps, Play(l, time)); }
      TotalAdjusted(ps + [Play(l, time)]);
    }
  }

  /** Updating a row that summarises a history gives a row that summarises the
      history extended by the new play: the running-mean formula keeps
      `avg * games == sum of the values submitted`, overall and per level. */
  lemma UpdateTracks(p: Record, ps: seq<Play>, name: string, l: Level, time: real)
    requires Tracks(p, ps)
    ensures UpdatedRecord(p, name, l, time).Some?
    ensures Tracks(UpdatedRecord(p, name, l, time).value, ps + [Play(l, time)])
  {
    var ps' := ps + [Play(l, time)];
    var s := LevelStats(p, l);
    var s' := Stats(RunningMean(s.avg, s.games, time), s.games + 1);
    var avg := RunningMean(p.overallAvg.value, p.overallGames, AdjustedTime(time, l));
    var r := WithLevelStats(p.(name := name, overallAvg := Some(avg), overallGames := p.overallGames + 1), l, s');
    assert UpdatedRecord(p, name, l, time) == Some(r);
    OverallStep(p.overallAvg.value, ps, l, time);
    assert r.overallGames == |ps'| && r.overallAvg == Some(avg);
    LevelStep(s, ps, l, time);
    match l
    case Easy =>
      LevelUntouched(p.medium, ps, l, Medium, time);
      LevelUntouched(p.hard, ps, l, Hard, time);
      assert r.easy == s' && r.medium == p.medium && r.hard == p.hard;
    case Medium =>
      LevelUntouched(p.easy, ps, l, Easy, time);
      LevelUntouched(p.hard, ps, l, Hard, time);
      assert r.medium == s' && r.easy == p.easy && r.hard == p.hard;
    case Hard =>
      LevelUntouched(p.easy, ps, l, Easy, time);
      LevelUntouched(p.medium, ps, l, Medium, time);
      assert r.hard == s' && r.easy == p.easy && r.medium == p.medium;
  }

  lemma AliceName()
    ensures Canonical("alice") == "Alice"
  {
    StripUnpadded("alice");
    LowerUnchanged("alice");
    LowerUnchanged("lice");
    assert "alice"[1..] == "lice";
    assert Capitalize("alice") == [ToUpper('a')] + "lice" == "Alice";
  }

  /** A valid submission on an empty table creates exactly one fresh row. */
  lemma FreshOnEmpty(raw: string, time: real, level: string, l: Level)
    requires ParseLevel(level) == Some(l)
    ensures Submission(map[], raw, time, level)
            == (Received, map[Canonical(raw) := FreshRecord(Canonical(raw), l, time)])
  {
  }

  /** Example: "alice" plays an easy game in 10 on an empty table and gets a
      row "Alice" with overall mean 15. */
  lemma AliceFirstGame()
    ensures Submission(map[], "alice", 10.0, "easy")
            == (Received, map["Alice" := Record("Alice", Some(15.0), 1, Stats(10.0, 1), Stats(0.0, 0), Stats(0.0, 0))])
  {
    FreshOnEmpty("alice", 10.0, "easy", Easy);
    AliceName();
    assert FreshRecord("Alice", Easy, 10.0) == Record("Alice", Some(15.0), 1, Stats(10.0, 1), Stats(0.0, 0), Stats(0.0, 0));
  }

  /** Example, continued from AliceFirstGame: "Alice" then plays a medium game in 20; the overall mean
      becomes (15 + 20) / 2 = 17.5 and the easy columns stay as they were. */
  lemma AliceSecondGame()
    ensures Submission(map["Alice" := Record("Alice", Some(15.0), 1, Stats(10.0, 1), Stats(0.0, 0), Stats(0.0, 0))],
                       "Alice", 20.0, "medium")
            == (Received, map["Alice" := Record("Alice", Some(17.5), 2, Stats(10.0, 1), Stats(20.0, 1), Stats(0.0, 0))])
  {
    assert IsCanonical("Alice");
    CanonicalFixesCanonical("Alice");
    var p := Record("Alice", Some(15.0), 1, Stats(10.0, 1), Stats(0.0, 0), Stats(0.0, 0));
    assert RunningMean(15.0, 1, AdjustedTime(20.0, Medium)) == 17.5;
    assert RunningMean(0.0, 0, 20.0) == 20.0;
    var q := Record("Alice", Some(17.5), 2, Stats(10.0, 1), Stats(20.0, 1), Stats(0.0, 0));
    assert UpdatedRecord(p, "Alice", Medium, 20.0) == Some(q);
    assert ParseLevel("medium") == Some(Medium);
    var t := map["Alice" := p];
    assert "Alice" in t && t["Alice"] == p;
    assert Submission(t, "Alice", 20.0, "medium") == (Received, t["Alice" := q]);
    assert t["Alice" := q] == map["Alice" := q];
  }

  /** The update branch of the submit handler on one row (app.py lines 52-58):
      the new overall and level columns, or None when the stored overall
      average is null and the arithmetic on it fails. */
  method UpdateRow(player: Record, name: string, l: Level, time: real, adjusted: real)
    returns (updated: Option<Record>)
    requires adjusted == AdjustedTime(time, l)
    ensures updated == UpdatedRecord(player, name, l, time)
  {
    if player.overallAvg.None? {
      return None;
    }
    var overallGames := player.overallGames + 1;
    var overallAvg := (player.overallAvg.value * (player.overallGames as real) + adjusted) / (overallGames as real);
    var s := LevelStats(player, l);
    var levelGames := s.games + 1;
    var levelAvg := (s.avg * (s.games as real) + time) / (levelGames as real);
    assert overallAvg == RunningMean(player.overallAvg.value, player.overallGames, adjusted);
    assert levelAvg == RunningMean(s.avg, s.games, time);
    var row := player.(name := name, overallAvg := Some(overallAvg), overallGames := overallGames);
    updated := Some(WithLevelStats(row, l, Stats(levelAvg, levelGames)));
  }

  /** Every row is stored under its own name and summarises the history kept
      for that name, and there is a history exactly for the names with a row. */
  ghost predicate Summarises(rows: map<string, Record>, plays: map<string, seq<Play>>) {
    && rows.Keys == plays.Keys
    && forall k :: k in rows ==> rows[k].name == k && Tracks(rows[k], plays[k])
  }

  /** Writing one row together with its history keeps the tables in step. */
  lemma SummarisesPut(rows: map<string, Record>, plays: map<string, seq<Play>>,
                      name: string, r: Record, ps: seq<Play>)
    requires Summarises(rows, plays)
    requires r.name == name && Tracks(r, ps)
    ensures Summarises(rows[name := r], plays[name := ps])
  {
  }

  /** The score table as a mutable object. Beside the rows it keeps, as ghost
      state, the history of accepted plays of every player, and its invariant
      is that every row is stored under its own name and summarises that history. */
  class Store {
    var rows: map<string, Record>
    ghost var plays: map<string, seq<Play>>

    ghost predicate Valid()
      reads this
    {
      Summarises(rows, plays)
    }

    constructor ()
      ensures Valid()
      ensures rows == map[] && plays == map[]
    {
      rows := map[];
      plays := map[];
    }

    /** The history of a player, empty for a player never seen. */
    ghost function History(name: string): seq<Play>
      reads this
    {
      if name in plays then plays[name] else []
    }

    /** The submit handler (app.py lines 19-68): canonicalise the name, look the
        level up, then read the player's row and insert or update it. */
    method Submit(rawName: string, time: real, level: string) returns (resp: Response)
      requires Valid()
      modifies this
      ensures Valid()
      ensures (resp, rows) == Submission(old(rows), rawName, time, level)
      ensures resp != ServerError
      ensures resp == Received ==>
        plays == old(plays)[Canonical(rawName) := old(History(Canonical(rawName))) + [Play(ParseLevel(level).value, time)]]
      ensures resp != Received ==> plays == old(plays)
    {
      var name := Capitalize(Lower(Strip(rawName)));
      assert name == Canonical(rawName);
      var parsed := ParseLevel(level);
      if parsed.None? {
        return InvalidLevel;
      }
      var l := parsed.value;
      var adjusted := AdjustedTime(time, l);

      if name !in rows {
        var row := Record(name, Some(adjusted), 1,
                          if l == Easy then Stats(time, 1) else Stats(0.0, 0),
                          if l == Medium then Stats(time, 1) else Stats(0.0, 0),
                          if l == Hard then Stats(time, 1) else Stats(0.0, 0));
        assert row == FreshRecord(name, l, time);
        FreshTracks(name, l, time);
        SummarisesPut(rows, plays, name, row, [Play(l, time)]);
        rows := rows[name := row];
        assert History(name) + [Play(l, time)] == [Play(l, time)];
        plays := plays[name := [Play(l, time)]];
      } else {
        var player := rows[name];
        var updated := UpdateRow(player, name, l, time, adjusted);
        UpdateTracks(player, plays[name], name, l, time);
        if updated.None? {
          return ServerError;
        }
        SummarisesPut(rows, plays, name, updated.value, plays[name] + [Play(l, time)]);
        assert History(name) == plays[name];
        rows := rows[name := updated.value];
        plays := plays[name := plays[name] + [Play(l, time)]];
      }
      resp := Received;
    }
  }

  /** In a valid store every row keeps the bookkeeping invariant. */
  lemma ValidStoreConsistent(store: Store)
    requires store.Valid()
    ensures AllConsistent(store.rows)
  {
    forall k | k in store.rows
      ensures GamesConsistent(store.rows[k])
    {
      TracksConsistent(store.rows[k], store.plays[k]);
    }
  }
}
