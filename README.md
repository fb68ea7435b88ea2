# Score submission and leaderboard: a Dafny model

This project models the logic of a small score service for a puzzle game. Players
submit a time at a difficulty level. The service keeps one row per player, keyed by
the player's canonical name. Each row holds running averages and game counts,
overall and per level. The leaderboard lists all rows, sorted by overall average.

The model has four modules:

- `PlayerName` (player_name.dfy): `str.strip()`, `str.lower()` and `str.capitalize()`
  on ASCII, and the canonical key they produce. Proved: canonical form is exactly the
  set of fixed points, canonicalisation is idempotent, and two names are the same
  player exactly when they agree after stripping and lower-casing.
- `Scores` (scores.dfy): levels and their multipliers (easy 1.5, medium 1.0, hard
  0.5), the row type, and the submit operation. `Submission` is a pure function from
  the old table to the response and the new table. `Store` is a class whose `rows`
  map is updated in place by `Submit`; `Submit` is proved equal to `Submission`.
  `Store` also keeps a ghost history of every accepted play. Its invariant says each
  row is exactly the summary of that history: counts are numbers of plays, and each
  mean times its count is the sum of the times (adjusted times overall, raw times per
  level).
- `Leaderboard` (leaderboard.dfy): the sort key (a missing overall average counts as
  +infinity), a reference stable insertion sort `InsertionSort`, and an in-place array
  insertion sort `SortRows` proved equal to it. Proved about the reference: it is a
  permutation, it is sorted, and it is stable. Also proved: every sorted, stable
  rearrangement equals it. So Python's `list.sort` (timsort) returns the same
  sequence, and modelling it by insertion sort loses nothing.
- `Wrappers` (wrappers.dfy): `Option`.

Averages are exact `real`s and game counts are `nat`s. The Supabase `scores` table is
a `map<string, Record>`. The rows that `select *` returns are a parameter of
`GetLeaderboard`, because the store decides their order. `None` stands for no data.

The code validates only the level; the model follows the code:

- The only explicit check is on the level. An empty name is accepted and becomes
  the key `""`. It is not an input error.
- A known player whose stored `overall_avg` is null makes `None * int` raise. The
  model gives `ServerError` and writes nothing.
- An invalid level is rejected before any store read. A `ServerError` happens after
  the read and before any write.
- The comment beside the insert (app.py line 37) says the name is stored in lower
  case, but line 39 stores the capitalised key from line 22. `Canonical` and
  `FreshRecord` store that capitalised key.

## Model

| member | source | states |
|---|---|---|
| `PlayerName.TrimLeft` | app.py:21 | left strip: the result is a suffix of the input, it does not start with whitespace, and everything cut off is whitespace |
| `PlayerName.TrimRight` | app.py:21 | right strip: the result is a prefix of the input, it does not end with whitespace, and everything cut off is whitespace |
| `PlayerName.Strip` | app.py:21 | `strip()`: an infix with no surrounding whitespace; everything before and after it is whitespace |
| `PlayerName.StripPadded` | app.py:21 | stripping whitespace padding from both sides of a name gives the name back |
| `PlayerName.CanonicalIsCanonical` | app.py:21-22 | every canonical key has no surrounding whitespace, a first character that is not lower-case, and no upper-case letter after the first |
| `PlayerName.CanonicalFixedPoints` | app.py:21-22 | `Canonical(s) == s` exactly when `s` is in canonical form (both directions) |
| `PlayerName.CanonicalIdempotent` | app.py:21-22 | canonicalising a canonical key changes nothing |
| `PlayerName.SamePlayer` | app.py:21-22 | two names give the same key exactly when they are equal after strip and lower-case |
| `PlayerName.BobShouted` | app.py:21-22 | `" BOB "` becomes `"Bob"` |
| `PlayerName.BobLower` | app.py:21-22 | `"bob"` becomes `"Bob"` |
| `PlayerName.BobMixed` | app.py:21-22 | `"  bOB  "` becomes `"Bob"` |
| `PlayerName.BobIsCanonical` | app.py:21-22 | `"Bob"` is its own key |
| `Scores.ParseLevel` | app.py:26-27 | a level is recognised exactly when it is `"easy"`, `"medium"` or `"hard"` (case-sensitive), and it is recognised as the level of that name |
| `Scores.ParseLevelName` | app.py:26 | each level's name parses back to that level |
| `Scores.MultiplierOrder` | app.py:26 | the multipliers are 1.5, 1.0 and 0.5, all positive, hard < medium < easy |
| `Scores.RunningMean` | app.py:52-58 | the new mean times the new count equals the old mean times the old count plus the new value |
| `Scores.SubmitRejectsUnknownLevel` | app.py:26-28 | the response is InvalidLevel exactly when the level is not one of the three names, and then the table is unchanged |
| `Scores.SubmitNewPlayer` | app.py:36-49 | for an absent player: Received; one new key; overall mean = time × multiplier; one game; the submitted level has mean = time and one game; the other levels have mean 0 and no games |
| `Scores.FreshOnEmpty` | app.py:36-49 | a valid submission on an empty table answers Received and leaves exactly one row, the fresh row under the canonical name |
| `Scores.SubmitExistingPlayer` | app.py:50-66 | for a present player: Received; same keys; overall count +1; new overall mean × count = old mean × old count + adjusted time; level count +1; new level mean × count = old level total + raw time; the other two levels unchanged |
| `Scores.SubmitNullAverage` | app.py:52-53 | a present row with a null overall average gives ServerError and leaves the table unchanged |
| `Scores.SubmitFrame` | app.py:33-66 | every key other than the canonical name keeps its presence and its row; a Received submission leaves that name present; any other response leaves the table unchanged |
| `Scores.SubmitKeepsInvariants` | app.py:36-66 | if every row has overall games = easy + medium + hard games and is stored under its own name, then this still holds after a submit |
| `Scores.CountsSplit` | app.py:41-47 | the number of plays is the sum of the plays at each level |
| `Scores.TracksConsistent` | app.py:52-57 | a row that summarises its history satisfies overall games = sum of the level games |
| `Scores.FreshTracks` | app.py:38-48 | a new row summarises the one-play history |
| `Scores.OverallStep` | app.py:52-53 | the overall running-mean update keeps mean × count equal to the sum of adjusted times over the history plus the new play |
| `Scores.LevelStep` | app.py:55-58 | the running-mean update of the submitted level keeps its columns equal to the count and sum of that level's raw times |
| `Scores.LevelUntouched` | app.py:60-65 | a level the update does not write still summarises the longer history |
| `Scores.UpdateTracks` | app.py:52-66 | updating a row that summarises a history gives a row that summarises the history plus the new play: avg × games = sum of values, overall and per level |
| `Scores.UpdateRow` | app.py:52-58 | the step-by-step update computes the specified row, or None when the stored overall average is null |
| `Scores.AliceFirstGame` | app.py:36-49 | `"alice"`, 10, easy on an empty table gives the single row `"Alice"`: overall 15 over 1 game, easy 10 over 1 game, other levels 0 |
| `Scores.AliceSecondGame` | app.py:50-66 | then `"Alice"`, 20, medium gives overall 17.5 over 2 games and medium 20 over 1 game; easy is unchanged |
| `Scores.SummarisesPut` | app.py:49 | writing one row and its history keeps the store invariant |
| `Scores.Store.Submit` | app.py:19-68 | the response and the new rows are those of `Submission`; the store invariant is kept; ServerError cannot happen; the history grows by this play exactly when the submission is Received |
| `Scores.ValidStoreConsistent` | app.py:41-57 | in a valid store every row satisfies overall games = easy + medium + hard games |
| `Leaderboard.KeyOrder` | app.py:76 | the sort-key order with missing = +infinity is reflexive, total and transitive, and antisymmetric on keys |
| `Leaderboard.InsertPermutes` | app.py:76 | inserting adds exactly the inserted row to the multiset |
| `Leaderboard.InsertSorted` | app.py:76 | inserting into a sorted sequence keeps it sorted |
| `Leaderboard.InsertWithKey` | app.py:76 | inserting appends the row to its own key's group and changes no other group |
| `Leaderboard.InsertSplit` | app.py:76 | inserting a row puts it right after the last row that may come before it, with every later row one place further on |
| `Leaderboard.SortPermutes` | app.py:76 | the sort returns a permutation of its input |
| `Leaderboard.SortSorts` | app.py:76 | the sort's output is non-decreasing in overall average, missing averages last |
| `Leaderboard.SortStable` | app.py:76 | for every key, the rows with that key come out in their input order |
| `Leaderboard.SortedStableUnique` | app.py:76 | two sorted sequences with the same rows per key, in the same order, are equal |
| `Leaderboard.StableSortIsInsertionSort` | app.py:76 | any sorted and stable rearrangement of the rows equals the reference sort |
| `Leaderboard.InsertAt` | app.py:76 | one in-place step moves the row at index i to its stable position in the sorted prefix and leaves the rest of the array alone |
| `Leaderboard.SortRows` | app.py:76 | the array is sorted in place, and its new contents are the reference sort of its old contents |
| `Leaderboard.GetLeaderboard` | app.py:71-78 | no data gives the empty board; otherwise the board is a permutation of the rows, sorted by overall average, with rows missing an average after all others, and with equal-key rows in input order |
| `Leaderboard.LeaderboardExample` | app.py:76 | players with averages 30 and 17.5, in that order, are listed 17.5 first |
| `Leaderboard.LeaderboardNullLast` | app.py:76 | a row with no average goes after a row with one, even when it came first |

## Left out

- HTTP routing, `request.json`, `jsonify` and status codes (app.py lines 1, 7, 18-20, 68, 70, 78-81): responses are the `Response` datatype.
- CORS, dotenv and environment/port configuration (app.py lines 8-14): configuration only.
- The Supabase client (app.py lines 3, 16, 33, 49, 60-66, 72): the table is a map, the fetched rows are a parameter, and network or store failures are not modelled.
- Concurrency: the lost update between two simultaneous submits of one player. Requests are sequential.
- IEEE floating point: averages are exact reals. Rounding, NaN and a stored average that is itself infinity (which would tie with missing averages in the sort) are not modelled.
- `float(...)` parsing of the time and `str(...)` of the name and level (app.py lines 21-24): `time` is a real and `name` and `level` are strings. A missing or non-numeric time makes `float(...)` raise at line 23, before the level check, which is a server error the model does not have. A missing name, which the source turns into the key `"None"`, is not modelled.
- Unicode: case mapping and whitespace are ASCII only. Other characters pass through `Strip`, `Lower` and `Capitalize` unchanged, whereas Python maps and strips them.
- Null or missing columns other than `overall_avg` are not modelled: a row always has its game counts and level averages.
- `Scores.Store.Submit`: starts from an empty store (the constructor). Rows present before the model's first submission, or written by other clients, are covered by `Submission` and its lemmas, not by the store invariant.
