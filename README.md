# Biwenger tools: message ingestion and dashboard views

A Dafny model of two pieces of the Biwenger league tools.

1. **The scraper job** (`scraper_job/get_messages.py`, `main`). It checks that the credentials are present. It takes the fingerprints (`id_hash`) of the messages already stored in the season's `comunicados_<season>.csv`. It then walks the board items fetched from Biwenger and appends every item whose fingerprint is not in that set. Both CSV files are written only when at least one item was appended.
2. **The dashboard's view logic** (`web/app.py`), with the Drive download stripped off:
   - the category filters of `comunicados` and `salseo`;
   - pagination;
   - the participation table (counts read from `;`-joined cells, stable sort by total);
   - the palmarès grouping and its season order;
   - the session handling of `manage_season`, `admin` and `logout`.

Files and modules:

- `wrappers.dfy` (`Wrappers`): `Option`.
- `seqs.dfy` (`Seqs`): the filtering comprehension `[x for x in s if keep(x)]` and the facts it keeps (order, multiplicities, concatenation), shared by the scraper and the views.
- `csv.dfy` (`Csv`): a CSV row is a `map<string, string>`, and `Get` is `row.get(key, default)`.
- `pystr.dfy` (`PyStr`): the Python string operations the code relies on, written out:
  - `strip()` with Python's whitespace set;
  - `str(int)`;
  - `split(";")` and `";".join`;
  - `endswith`;
  - string `<` (lexicographic order by code point).
- `ingest.dfy` (`Ingest`): the credential check, fingerprints, the dedup/append loop and one whole run.
  - The loop is the method `MergeNew`, proved against the specification function `NewRows`.
  - `Run` returns the run's result and a log of the Drive and board requests it would make.
- `views.dfy` (`Views`): filters, pagination, participation counts and the stable sort.
- `palmares.dfy` (`Palmares`): the grouping loop `GroupRows`, proved against the fold `Group`, plus the season sort.
- `session.dfy` (`Sessions`): the class `Session`, whose `entries` map is the Flask session.

Foreign calls are not interpreted. They are fields of the `Ingest.Library` datatype, passed in as functions:

- SHA-256;
- BeautifulSoup's `get_text`;
- the Europe/Madrid `strftime`;
- `categorize_title`, `sort_messages` and `process_participation`.

The Drive and board responses are inputs:

- the stored rows, or None when the file is not found;
- whether the participation file exists;
- the board items;
- the user map.

In the web views, a downloaded file is an `Option<seq<Row>>`. None stands for every failure before the rows exist: no Drive service, the file not found, or an I/O error. Each route catches these and renders an error.

Behaviours the model keeps because the code has them:

- New items are checked only against the id set taken before the loop. Two new items of one batch with the same fingerprint are therefore both appended (`InBatchDuplicatesKept`).
- A missing credential raises a `ValueError`. The top-level handler catches it and only prints it. The run ends as `CredentialsMissing` before any Drive or board access.
- The date and the text are joined with no separator before hashing. The pairs (1, "23") and (12, "3") therefore get the same fingerprint (`FingerprintKeyCollision`).
- A new board item without `date` makes `item["date"]` raise. The run ends with nothing written (`Aborted`).
- `csv.DictWriter` raises ValueError on a row key outside its header. The messages are written and uploaded before the participation table is built, so a participation row the writer rejects ends the run (`Aborted`) after the messages upload. A stored row with an extra column aborts the run before any upload, once something new was found, provided `sort_messages` returns the rows it was given.
- In `participacion`, a row without `autor` raises a KeyError. The records built before that row stay in `stats`, unsorted, and the page shows them next to an error.
- In `palmares`, a row whose category is literally `otros` replaces that season's "otros" list with a string. A later `multa`, `sancion` or `farolillo` row of the same season then fails to append. The whole page shows no seasons (`Clash`).
- The admin check compares the form field and `ADMIN_PASSWORD` as optional values. An absent form field therefore matches an unset `ADMIN_PASSWORD`. The value of `ADMIN_PASSWORD` is set in `web/config.py`, which is not part of this model.
- Pagination uses Python slicing with negative bounds, written out exactly. Page 0 is empty. Pages below 0 count from the end of the list. The lemmas about pages assume page ≥ 1.

## Model

| member | source | states |
|---|---|---|
| `Ingest.Resolve` | packages/biwenger_tools/scraper_job/get_messages.py:36-46 | `secret_from_file or config_value`: the result is non-empty exactly when one of the two is; a non-empty file value wins |
| `Ingest.FingerprintOfText` | packages/biwenger_tools/scraper_job/get_messages.py:96-100 | items with the same date and the same extracted text get the same `id_hash`, whatever their HTML markup |
| `Ingest.FingerprintKeyCollision` | packages/biwenger_tools/scraper_job/get_messages.py:99-100 | date 1 with text "23" and date 12 with text "3" hash the same string: the key is the concatenation, not the pair |
| `Ingest.AuthorName` | packages/biwenger_tools/scraper_job/get_messages.py:104-106 | the author is `user_map[author.id]` when the item has an author whose id is in the map, and "Autor Desconocido" when the author is missing, has no id, or has an unknown id |
| `Ingest.NewRow` | packages/biwenger_tools/scraper_job/get_messages.py:109-121 | a new item without a date raises; otherwise the row has exactly the six CSV fields, `id_hash` is the fingerprint, `autor` the mapped author name, `fecha` the Madrid rendering of the date, `contenido` the raw HTML, a missing title is stored as "Sin título" while `categorize_title` receives "" |
| `Ingest.IdsOf` | packages/biwenger_tools/scraper_job/get_messages.py:82 | the id set holds exactly the `id_hash` of every stored row |
| `Ingest.NewRowsAreFreshItems` | packages/biwenger_tools/scraper_job/get_messages.py:95-122 | the loop aborts exactly when some new item has no date; otherwise it appends one row per item whose hash is not in the fixed id set, in board order, and no other row |
| `Ingest.InBatchDuplicatesKept` | packages/biwenger_tools/scraper_job/get_messages.py:82-113 | the id set is never updated in the loop: two new items of one batch with the same hash are both appended |
| `Ingest.RerunAddsNothing` | packages/biwenger_tools/scraper_job/get_messages.py:82-113 | once the appended rows are stored, a second pass over the same board appends nothing (idempotent re-ingestion) |
| `Ingest.NoNewItems` | packages/biwenger_tools/scraper_job/get_messages.py:102 | a board none of whose items has a new hash appends no rows |
| `Ingest.MergeNew` | packages/biwenger_tools/scraper_job/get_messages.py:94-122 | the loop: `aborted` exactly on the missing-date KeyError; otherwise the result is the stored rows, unchanged, followed by the new rows, and the count is the number of rows appended |
| `Ingest.Run` | packages/biwenger_tools/scraper_job/get_messages.py:32-182 | missing credentials end the run before any Drive or board request; a stored row without `id_hash` aborts after the download; a new item without `date` aborts before any upload; once the loop appended something, the sorted rows are uploaded unless one has a key outside the six message columns, and the participation table follows unless one of its rows has a key outside its five columns; with nothing appended nothing is uploaded, and the participation file is uploaded only by a run that completes |
| `Ingest.WriteBack` | packages/biwenger_tools/scraper_job/get_messages.py:125-177 | the messages file is uploaded from the sorted rows exactly when every row fits the six-column header; the participation file is then looked up and uploaded exactly when every row of the table fits its five-column header; a row that does not fit ends the run as `Aborted` with the uploads made so far |
| `Ingest.KnownMessageAddsNothing` | packages/biwenger_tools/scraper_job/get_messages.py:102-125 | with a stored message "a" and a board item hashing to "a", nothing is appended, so nothing is written |
| `PyStr.Strip` | packages/biwenger_tools/web/app.py:127 | `str.strip()` leaves a string that neither starts nor ends with whitespace |
| `PyStr.StripShape` | packages/biwenger_tools/web/app.py:355-357 | `strip()` removes only a run of whitespace before and one after the kept part |
| `PyStr.Split` | packages/biwenger_tools/web/app.py:232 | `s.split(";")` has one piece more than `s` has separators, and no piece contains one |
| `PyStr.JoinSplit` | packages/biwenger_tools/web/app.py:232 | joining the pieces of a split with the separator gives back the cell |
| `PyStr.SplitJoin` | packages/biwenger_tools/web/app.py:232 | splitting the join of separator-free pieces gives back the pieces |
| `PyStr.BelowTransitive` | packages/biwenger_tools/web/app.py:365 | string order is transitive |
| `PyStr.BelowTotal` | packages/biwenger_tools/web/app.py:365 | two different strings are ordered one way or the other |
| `PyStr.BelowIrreflexive` | packages/biwenger_tools/web/app.py:365 | no string is below itself |
| `Views.FilterCategory` | packages/biwenger_tools/web/app.py:126-128 | every row kept has stripped `categoria` equal to the label, a missing key counting as "" |
| `Seqs.FilterIsSubsequence` | packages/biwenger_tools/web/app.py:126-128 | the filtered rows are a subsequence of the file, order kept |
| `Seqs.FilterCounts` | packages/biwenger_tools/web/app.py:126-128 | each row meeting the condition occurs as often as in the file, and no other row occurs |
| `Seqs.FilterAppend` | packages/biwenger_tools/web/app.py:181-189 | filtering a concatenation is concatenating the filtered parts |
| `Views.FiltersDisjoint` | packages/biwenger_tools/web/app.py:181-189 | no row is in two filters with different labels |
| `Views.Comunicados` | packages/biwenger_tools/web/app.py:104-137 | the comunicados view: on failure no rows, page 1 of 1; otherwise the "comunicado" rows, the requested page of them and their page count |
| `Views.Salseo` | packages/biwenger_tools/web/app.py:160-195 | the salseo view: the "dato", "cesion" and "cronica" filters of one file, all empty on failure |
| `Views.PyIndex` | packages/biwenger_tools/web/app.py:134 | a slice bound as Python normalises it: inside the list it is kept, past the end it is the length, a negative bound counts from the end and stops at 0 |
| `Views.PageIsWindow` | packages/biwenger_tools/web/app.py:130-134 | for page ≥ 1 the page is `list[(page-1)*N : (page-1)*N + N]`, cut at the end of the list, with at most N rows |
| `Views.TotalPagesIsCeiling` | packages/biwenger_tools/web/app.py:135-137 | the page count is ceil(len / N): 0 exactly for no rows, enough pages for every row, and no page more |
| `Views.PagesUpToIsPrefix` | packages/biwenger_tools/web/app.py:130-137 | pages 1..k together are the first k·N rows |
| `Views.AllPagesCoverList` | packages/biwenger_tools/web/app.py:130-137 | pages 1..total_pages together are the whole filtered list |
| `Views.PagesPastEndEmpty` | packages/biwenger_tools/web/app.py:130-137 | a page past the page count is empty |
| `Views.PageZeroEmpty` | packages/biwenger_tools/web/app.py:130-134 | page 0 is empty |
| `Views.CellCount` | packages/biwenger_tools/web/app.py:231-244 | a missing or empty cell counts 0; any other counts 1 + its number of ';' |
| `Views.CellCountOfJoin` | packages/biwenger_tools/web/app.py:232-244 | a cell written as the ';'-join of k ≥ 1 ids without ';' counts k, unless the join is empty |
| `Views.BuildStat` | packages/biwenger_tools/web/app.py:246-257 | a record keeps `autor`, has the four cell counts, and `total` is their sum |
| `Views.BuildStats` | packages/biwenger_tools/web/app.py:230-258 | one record per row, in file order |
| `Views.InsertByTotal` | packages/biwenger_tools/web/app.py:259 | inserting into a list sorted by total keeps it sorted and adds exactly the new record |
| `Views.InsertByTotalStable` | packages/biwenger_tools/web/app.py:259 | the inserted record goes first among the records with its total |
| `Views.SortByTotal` | packages/biwenger_tools/web/app.py:259 | `stats.sort(key=total, reverse=True)` leaves totals non-increasing and is a permutation |
| `Views.SortByTotalStable` | packages/biwenger_tools/web/app.py:259 | for every total, the records with that total keep their input order (Python's sort is stable under `reverse=True`) |
| `Views.Participacion` | packages/biwenger_tools/web/app.py:211-265 | on failure no records; when every row has `autor`, the records sorted by total, a permutation of the built records, stable; otherwise an error with the records of the rows before the first row without `autor`, unsorted |
| `Palmares.GroupMeaning` | packages/biwenger_tools/web/app.py:354-364 | the grouping fails exactly on an "otros"-category row followed by a special row of the same season. Otherwise there is one entry per season of a complete row (incomplete rows are skipped). Under every other category the entry holds the value of the last row. Under "otros", when no row of that season has that category, it holds the season's multa/sancion/farolillo entries in file order |
| `Palmares.StepMeaning` | packages/biwenger_tools/web/app.py:355-364 | one row's update keeps the grouping a faithful description of the rows read so far |
| `Palmares.StepRow` | packages/biwenger_tools/web/app.py:355-364 | one pass of the loop body computes `Step`: incomplete rows change nothing, a special row appended to an "otros" list that is a string fails, any other row updates its season's entry |
| `Palmares.GroupRows` | packages/biwenger_tools/web/app.py:354-364 | the loop over the nested dictionaries computes the fold `Group`, failing exactly where it fails |
| `Palmares.InsertKey` | packages/biwenger_tools/web/app.py:365 | inserting a new key into a strictly descending list keeps it strictly descending and adds exactly that key |
| `Palmares.SortKeys` | packages/biwenger_tools/web/app.py:365 | distinct season keys sorted in reverse are strictly descending and a permutation |
| `Palmares.DescendingDistinct` | packages/biwenger_tools/web/app.py:365 | a strictly descending season list names no season twice |
| `Palmares.SortedItems` | packages/biwenger_tools/web/app.py:365 | every season appears exactly once with its record, keys distinct and in strictly descending string order |
| `Palmares.PalmaresView` | packages/biwenger_tools/web/app.py:336-372 | no seasons on failure or on a clash; otherwise the sorted items of a grouping that describes the file |
| `Sessions.Session.ManageSeason` | packages/biwenger_tools/web/app.py:57-81 | static and `.ico` requests leave the session alone and set no season. Otherwise a URL season containing '-' overwrites `current_season`, and a missing `current_season` is set to the default. Nothing else changes, and `g.season` is the session value |
| `Sessions.Session.Admin` | packages/biwenger_tools/web/app.py:414-499 | logged in: the panel, session unchanged; a POST with the configured password sets the flag and nothing else; a POST with any other password shows the form with the error and appends ("error", the wrong-password message) to the session's `_flashes`; a GET shows the form and leaves the session unchanged |
| `Sessions.Session.Logout` | packages/biwenger_tools/web/app.py:502-507 | logout removes the login flag, appends ("info", the logged-out message) to the session's `_flashes`, and keeps every other key |

## Left out

- Drive and Sheets access (`get_google_service`, `find_file_on_drive`, `download_csv_as_dict`, `upload_csv_to_drive`, `get_sheets_data`, `get_file_metadata`): external I/O. Downloads are inputs and uploads are entries of `Run`'s log.
- The Biwenger client and `get_all_board_messages`: network calls. The board items and `user_map` are inputs.
- `categorize_title`, `sort_messages` and `process_participation`: they live in `scraper_job/logic/processing.py`, which is not part of this model. They are passed in as functions, and nothing is assumed about their keyword rules or their order.
- SHA-256 and BeautifulSoup's text extraction: foreign library calls, passed in as functions.
- Time handling: the Madrid timestamp formatting is a function passed in. The admin panel's staleness check against the clock (`web/app.py:443-465`) is clock- and library-dependent and is left out.
- The admin panel's file list, the Cloud Run log URL, templates, `redirect`, `jsonify` and CSV serialisation: web and serialisation plumbing.
- Network exceptions during a run: the model has only the failures the core itself raises (missing credentials, KeyErrors, the CSV writers' ValueErrors). An exception from Drive or the board is not modelled.
- `Ingest.Run`: an `Aborted` run does not promise that nothing was uploaded; when the participation writer fails, the messages file is already on Drive.
- The `SSLError` branch of `palmares` never assigns `sorted_seasons`, so rendering would then fail with an unbound variable. The model folds every download failure into "no rows, error shown".
- `Ingest.NewRow`: a board item's key holding JSON null is modelled as a missing key. The code treats the two differently:
  - a null `title` is stored as None and passed to `categorize_title` as None, where the model stores "Sin título" and passes "";
  - a null `content` is passed to BeautifulSoup and stored as None;
  - a null `date` is hashed as the text "None" followed by the extracted text.
- Cells that `csv.DictReader` fills with None for short lines: rows are string maps, so `.strip()` on None is not modelled.
- `Views.PageIsWindow`: the page lemmas assume page ≥ 1; the function `PageOf` itself follows Python slicing for every page.
- `PyStr.Strip`: whitespace is the set Python's `str.isspace` accepts; no other Unicode handling is modelled.
- `Views.SortByTotal`: `list.sort` is modelled as a function on values (a stable insertion sort), not as an in-place update.
- `Palmares.GroupRows`: a season's record is a map, so the insertion order of its categories (the inner `defaultdict`) is not modelled; only the season order is kept, and the sort discards that too.
- `Palmares.SortKeys`: `sorted` is modelled as an insertion sort on the dictionary's keys.
- `Sessions.Session.Admin` and `Sessions.Session.Logout`: `flash` is modelled as Flask writes it, an append to the session's `_flashes` list; `get_flashed_messages`, which a template may call to pop that list, is not modelled.
- `Sessions.Session.Admin`: the password is compared as an optional string; Flask's form parsing is not modelled.
- `lloros_awards`, `api_lloros_ligas`, `api_lloros_trofeos`, `reglamento`, `favicon` and `home`: they hold no logic beyond external calls and rendering.
- Module-level service initialisation and the `__main__` blocks: start-up plumbing.
