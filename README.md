# Construction material recommendation: the level-mapping ranking engine

This project models, in Dafny, the recommendation logic of
`material_recommendation/app.py` and proves properties of it.

The recommend handler turns the four Low/Medium/High picks of a user into the
numbers 3/6/9. It copies the chosen product catalog and maps each row's four
attribute labels (Strength, Cost, Water Resistance, Durability) through the
same table. It drops every row with a label the table does not know. It scores
each retained row by the negated Manhattan distance to the query, sorts by
score from highest to lowest and keeps the first six rows.

A smaller part models the in-memory credential map `users_db`. Registration
inserts a name only when it is not taken. Login checks that the name is
stored with the digest of the given password.

Layout:

- `wrappers.dfy`: `Option`, standing for a cell that pandas maps to NaN.
- `levels.dfy`: the level table, the lookup of one label, the query.
- `catalog.dfy`: catalog rows, mapping one row, the filtered catalog as a
  function (`Filtered`) and as the loop that computes it (`MapAndDrop`).
- `scoring.dfy`: the score and its range.
- `ranking.dfy`: the descending sort on an array, what a best-six choice is
  (`IsTopK`) and the whole handler (`Recommend`).
- `ranking_facts.dfy`: what every result the handler may return satisfies,
  and a worked three-row scenario.
- `credentials.dfy`: registration and login over a `map`; the store seen by
  each script run, both as written (rebuilt every run) and kept across runs;
  and the `UserStore` class that holds a map across calls.

Retained rows keep their position in the loaded catalog (`Item.index`),
because a pandas DataFrame keeps its index through `map`, `dropna` and
`sort_values`. This is what makes "the same row" meaningful in the
distinctness and top-k statements.

Two facts of the code shape the ranking contracts:

- `sort_values` at app.py:141 uses pandas' default quicksort, which is not
  stable, so the model promises nothing about the order of equal scores.
  `BricksScenario` therefore allows the Low and High rows in either order
  after the Medium row.
- `head(6)` returns exactly min(6, retained rows) rows, and `Recommend`
  states that equality.

## Model

| member | source | states |
|---|---|---|
| `Levels.Lookup` | material_recommendation/app.py:108 | a label maps to a number exactly when it is Low, Medium or High; Low gives 3, Medium 6, High 9; every number given is on the 3-6-9 scale |
| `Levels.ToQuery` | material_recommendation/app.py:110-118 | each of the four picks, a key of the table, becomes the table's number for it; every query attribute is on the 3-6-9 scale |
| `Catalog.MapRow` | material_recommendation/app.py:124-127 | a row maps exactly when all four labels are table keys; the mapped item keeps the row's position, name, application and eco note, holds the table's number for each label, and lies on the scale |
| `Catalog.Filtered` | material_recommendation/app.py:124-129 | the filtered catalog is never longer than the catalog |
| `Catalog.FilteredExactly` | material_recommendation/app.py:124-129 | the filter keeps exactly the rows whose four labels all map: each survivor is the mapped form of the catalog row at its index, survivors are in catalog order, and no mappable row is dropped |
| `Catalog.FilteredInScale` | material_recommendation/app.py:124-129 | every retained attribute value is 3, 6 or 9 |
| `Catalog.MapAndDrop` | material_recommendation/app.py:122-129 | the row-by-row mapping and dropping loop yields the filtered catalog |
| `Scoring.Score` | material_recommendation/app.py:131-137 | a score is at most 0, and it is 0 exactly when the row equals the query on Strength, Water Resistance, Cost and Durability |
| `Scoring.ScoreOnScale` | material_recommendation/app.py:131-137 | for a row and a query on the 3-6-9 scale the score is -3 times a step count between 0 and 8, so it lies in [-24, 0] and is a multiple of 3 |
| `Ranking.MaxIndexFrom` | material_recommendation/app.py:141 | the returned position holds a highest score of the array from the given start on |
| `Ranking.SortByScoreDescending` | material_recommendation/app.py:141 | after sorting the scores are non-increasing and the array is a permutation of what it was |
| `Ranking.PrefixOfSortedIsTopK` | material_recommendation/app.py:141 | the first k rows of any score-sorted permutation of the pool are a best-k choice: min(k, pool size) rows, non-increasing, a sub-multiset of the pool, and no left-out row scores above any chosen one |
| `Ranking.Recommend` | material_recommendation/app.py:121-141 | the handler's result is a best-six choice from the scored, filtered copy of the catalog under the query built from the four picks; the catalog itself is not modified |
| `RankingFacts.PoolMembers` | material_recommendation/app.py:124-140 | every candidate that gets ranked is a mappable catalog row, mapped, with its score against the query |
| `RankingFacts.PoolIndicesDistinct` | material_recommendation/app.py:124-129 | no two ranked candidates come from the same catalog row |
| `RankingFacts.RecommendedComeFromCatalog` | material_recommendation/app.py:124-141 | every recommended row is a mappable catalog row with its own fields and score, the score in [-24, 0] and a multiple of 3; a row with an unmapped label is never recommended |
| `RankingFacts.TopKDistinct` | material_recommendation/app.py:141 | a best-k choice from a pool without repeats has no repeats |
| `RankingFacts.RecommendedDistinct` | material_recommendation/app.py:141 | no catalog row is recommended twice |
| `RankingFacts.FirstIsBest` | material_recommendation/app.py:141 | the first recommendation scores at least as well as every candidate |
| `RankingFacts.EmptyIffNothingRetained` | material_recommendation/app.py:129-141 | the result is empty exactly when no catalog row has all four labels mapped |
| `RankingFacts.ExactMatchRanksFirst` | material_recommendation/app.py:131-141 | when some row matches the query on all four attributes, the first recommendation has score 0 |
| `RankingFacts.BricksPool` | material_recommendation/app.py:108-140 | in a three-row bricks catalog with Strength Low, Medium, High and Medium elsewhere, under an all-Medium query, all rows are kept, scoring -3, 0 and -3 |
| `RankingFacts.TopOfThree` | material_recommendation/app.py:141 | from three distinct candidates with one strict best, a best-six choice puts that one first and the other two after it in some order |
| `RankingFacts.BricksScenario` | material_recommendation/app.py:108-141 | in that scenario the Medium row ranks first with score 0, and the Low and High rows follow with score -3 |
| `Credentials.Registered` | material_recommendation/app.py:30-33 | registering a taken name leaves the map unchanged; otherwise it adds exactly the entry name to digest and keeps every other entry |
| `Credentials.LoginAfterRegister` | material_recommendation/app.py:16-33 | after a new name is registered, logging in with it succeeds exactly for the registered digest, and every other name's logins are unchanged |
| `Credentials.RegisterTakenKeepsLogins` | material_recommendation/app.py:30-31 | registering a taken name changes no login outcome |
| `Credentials.InitialUsers` | material_recommendation/app.py:6 | the initial map holds exactly the account admin, stored with the digest of "admin" |
| `Credentials.RegistrationLostAsWritten` | material_recommendation/app.py:6-33 | as written, with `users_db` rebuilt at the start of every script run, a name other than admin registered in one run is refused at login in the next run, whatever the history |
| `Credentials.AliceRefusedAsWritten` | material_recommendation/app.py:6-33 | as written, registering alice/secret and then logging in as alice/secret is refused |
| `Credentials.PersistentKeepsAccounts` | material_recommendation/app.py:30-33 | with a map kept across runs, an account once stored is never changed or lost by later clicks |
| `Credentials.RegistrationKeptPersistent` | material_recommendation/app.py:16-33 | with a map kept across runs, a newly registered name logs in with its password in any later run, whatever clicks come between |
| `Credentials.UserStore.constructor` | material_recommendation/app.py:6 | the store starts with the single account admin, stored with the digest of "admin" |
| `Credentials.UserStore.Register` | material_recommendation/app.py:29-34 | reports whether the name was new and leaves the map as registration defines it |
| `Credentials.UserStore.Login` | material_recommendation/app.py:16 | succeeds exactly when the name is stored with the digest of the password |

## Left out

- Credentials.UserStore: the class keeps `users_db` across calls (the
  intended behaviour). app.py:6 really rebuilds the map on every script run,
  so registrations do not survive to a later run; `StoreAtRunAsWritten` and
  the row under "## Findings" model that as-written behaviour.

- Streamlit UI: widgets, page routing through `st.session_state`, `st.rerun`,
  the sidebar, the logout buttons and the HTML result cards (app.py:11-23,
  37-87, 143-160) are presentation. Setting `logged_in` and `user` after a
  successful login is one part of this; `Login` only returns the verdict.
- CSV loading and `@st.cache_data` (app.py:90-102) are I/O. The chosen
  catalog is an input array. The Material Type select box is modelled by
  passing the chosen catalog.
- SHA-256 (app.py:8-9) is a foreign call. `UserStore` holds the hash function
  as a parameter, and nothing is assumed about digests.
- The `try`/`except` error display (app.py:139-162) catches pandas runtime
  failures that cannot happen in the typed model.
- Ranking.SortByScoreDescending: pandas sorts with quicksort; the model sorts
  by selection. Only what the call promises is stated: non-increasing scores
  and a permutation. The order among equal scores is left open.
- Floating point: after `map` the attribute columns may hold float64 values
  (NaN forces it). All values are small integers that floats hold exactly, so
  the model uses `int`.
- Missing cells in the CSV (read as NaN) are covered as labels that are not
  table keys. Columns other than name, application, eco note and the four
  attributes are not carried.
- The vector-similarity ranking variant: no file of the repository that
  implements it is part of this model.

## Findings

| source | as written | input that shows it | evidently intended | confidence | as-written member | corrected member |
|---|---|---|---|---|---|---|
| material_recommendation/app.py:6-33 | `users_db` is module-level code of the page script; Streamlit re-runs the script from the top on every click, so each run starts again from `{"admin": H("admin")}` and the entry added at app.py:33 is gone when the Login click is handled in a later run | register alice/secret, then click Login as alice/secret: refused | a map that lives across runs, so a registered user can log in | not executed; medium (rests on Streamlit's re-run model, outside this code) | `Credentials.RegistrationLostAsWritten` (with `Credentials.AliceRefusedAsWritten`) | `Credentials.RegistrationKeptPersistent` over `Credentials.StoreAtRunPersistent`, which `Credentials.UserStore` implements |
