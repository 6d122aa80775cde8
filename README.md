# Dialogues core rules, modelled in Dafny

Dialogues is a Flask web application for Catholic content. It has a
liturgical-calendar fetcher, a Bible reader API, discourse posts with
comments, and a charity directory. This project models the parts of it that
are rules rather than glue:

- the in-memory TTL cache and the LitCal URL builder of the liturgy helpers;
- the `liturgy:fetch-calendar` command's grouping of events by date and its
  choice of each day's primary event;
- the Bible blueprint's teardown of per-request connections, its
  translation listing, and the status and display reference of its search;
- the upload route with its file-name sanitiser, the newline-to-paragraph
  body and the prepending of a discourse to the content file;
- the user, role, discourse and comment operations over an in-memory store;
- the weighted discourse search and the search by author;
- the charity filter with its count and pagination.

Each file is one module:

| file | module | models |
|---|---|---|
| `wrappers.dfy` | `Wrappers` | `Option` |
| `text.dfy` | `Text` | Python string operations used by the source (`in`, `replace`, `split`, `join`, `strip`, `upper`, `lower`, `str(int)`) and truthiness |
| `seqs.dfy` | `Seqs` | list comprehensions with a filter, grouping into a dict in insertion order, distinct keys |
| `sorting.dfy` | `Sorting` | a stable sort by a caller-given order, standing for SQL `ORDER BY` |
| `lit_utils.dfy` | `LitUtils` | `app/dol_liturgy/lit_utils.py` |
| `calendar_fetch.dfy` | `Calendar` | `fetch_calendar` in `app/commands.py` |
| `bible_api.dfy` | `BibleApi` | `app/dol_bible/bible_routes.py` |
| `content_routes.dfy` | `ContentRoutes` | `app/routes.py` |
| `registry.dfy` | `Registry` | `app/dol_db/dbops.py` |
| `discourse_search.dfy` | `DiscourseSearch` | `app/dol_discourse/disc_utils.py` |
| `charity_search.dfy` | `CharitySearch` | `app/dol_charity/charity_utils.py` |

The model takes the source's own form:

- **Objects updated in place become classes.** The module-level `_CACHE`
  dictionary is `LitUtils.TtlCache`, with a `map` field. Flask's `g` is
  `BibleApi.RequestGlobals`. The `content.json` list is
  `ContentRoutes.ContentFile`. The database session is `Registry.Store`,
  with one `seq` per table.
- **Loops become methods with invariants.** This covers the calendar
  grouping dictionary, the `max` selection, the translation listing, the
  teardown loop and the resource loop.
- **A sequence of in-place appends becomes a method with successive
  assignments.** This covers the `ref +=` reference.
- **Expressions stay functions.** This covers the URL builder, the
  relevance `case`, the filters and the orderings.

Python semantics are spelled out where they matter:

- **Truthiness:** `None`, `""` and `0` are falsy.
- **`max` returns the first maximum.**
- **Dictionaries iterate in insertion order.**
- **`str.replace`** replaces the leftmost non-overlapping occurrences.
- **SQLite paging:** a negative `OFFSET` starts at the first row, and a
  negative `LIMIT` takes every row.

"Now" is an integer number of seconds passed in by the caller. The network
reply, the image conversion outcome, the password hash function and the
Bible query parser and database query are parameters too.

The Bible routes import a query parser (`parse_query`), a database query
(`fetch_from_db`) and a connection helper (`get_bible_db`) from
`app/dol_bible/bible_utils.py`. That file only lists the `.db` files, so
the parser and the query are not part of this model. `IntelligentSearch`
takes them as function parameters, and its contract holds for every
parser and every query.

## Model

| member | source | states |
|---|---|---|
| LitUtils.ClampTtl | app/dol_liturgy/lit_utils.py:59 | `max(1, ttl)`: a ttl of at least 1 is kept as is, and any smaller ttl becomes exactly 1 second |
| LitUtils.Lookup | app/dol_liturgy/lit_utils.py:49-56 | what a read returns; LitUtils.LookupHitIff states when it is a hit and what it returns |
| LitUtils.AfterGet | app/dol_liturgy/lit_utils.py:49-56 | a read only ever removes the key it reads; other keys and all values stay |
| LitUtils.AfterSet | app/dol_liturgy/lit_utils.py:58-59 | a write adds or replaces only its own key |
| LitUtils.LookupHitIff | app/dol_liturgy/lit_utils.py:52-53 | a read returns the stored data exactly when the entry's expiry is strictly after now |
| LitUtils.GetExpired | app/dol_liturgy/lit_utils.py:54-56 | reading an expired key returns nothing and removes that key alone |
| LitUtils.GetAbsent | app/dol_liturgy/lit_utils.py:50-56 | reading an absent key returns nothing and leaves the cache unchanged |
| LitUtils.SetExpiry | app/dol_liturgy/lit_utils.py:58-59 | the expiry is at least now + 1 even for ttl <= 0, and now + ttl for ttl >= 1 |
| LitUtils.SetThenGet | app/dol_liturgy/lit_utils.py:49-59 | after a write, every read before the expiry returns the data just written and evicts nothing; a read at or after the expiry returns nothing and removes the key |
| LitUtils.TtlCache.constructor | app/dol_liturgy/lit_utils.py:47 | the cache starts empty |
| LitUtils.TtlCache.Get | app/dol_liturgy/lit_utils.py:49-56 | returns the data only for an unexpired entry and drops an expired one |
| LitUtils.TtlCache.Set | app/dol_liturgy/lit_utils.py:58-59 | stores the data under the key with expiry now + max(1, ttl); no other key changes |
| LitUtils.EffectiveTimeout | app/dol_liturgy/lit_utils.py:83 | a falsy timeout becomes the 10-second default |
| LitUtils.RequestHeaders | app/dol_liturgy/lit_utils.py:85 | the request sends the caller's headers plus Accept; the caller's headers win, and Accept defaults to application/json |
| LitUtils.CacheKeyParts | app/dol_liturgy/lit_utils.py:87-96 | a given cache key is used as it is; a built key splits back at the separator bar into the upper-cased method, the URL and the two encodings when none of them holds that bar |
| LitUtils.CacheKeyInjective | app/dol_liturgy/lit_utils.py:88-96 | two built cache keys are equal only when the upper-cased method, the URL and both encodings are equal |
| LitUtils.Truncate | app/dol_liturgy/lit_utils.py:122 | an HTTP error detail is the whole body when it has at most 400 characters, and otherwise exactly its first 400 characters |
| LitUtils.ReplyOutcome | app/dol_liturgy/lit_utils.py:113-138 | a network failure or a non-ok status gives no data and the matching error (the body cut to 400 characters); an ok JSON reply whose body is `null` gives None and no error; one that fails to decode gives the text plus a parse warning; otherwise the decoded value or the text, with no error |
| LitUtils.SafeFetch | app/dol_liturgy/lit_utils.py:98-145 | a falsy ttl neither reads nor writes the cache; a truthy ttl returns a cached value other than None without a request; otherwise the reply is shaped and, when it reached an ok status, its data (a JSON `null` included) is stored |
| LitUtils.StoredNullNotServed | app/dol_liturgy/lit_utils.py:99-102 | a stored JSON `null` is still in the cache within its lifetime, but is not served, so the next call requests again |
| LitUtils.StoredValueServed | app/dol_liturgy/lit_utils.py:99-102 | a stored value other than None is served exactly until its expiry |
| LitUtils.RStripSlash | app/dol_liturgy/lit_utils.py:157 | the result is a prefix of the input that does not end in '/', and everything removed is '/' |
| LitUtils.BaseKept | app/dol_liturgy/lit_utils.py:157 | stripping trailing '/' keeps the published LitCal base |
| LitUtils.RegionPath | app/dol_liturgy/lit_utils.py:157-163 | the path is base/nation/N for a truthy nation, else base/diocese/D for a truthy diocese, else the base |
| LitUtils.LitcalUrl | app/dol_liturgy/lit_utils.py:150-166 | without a truthy year the URL is exactly the region path; with one it is exactly the region path followed by "/YEAR"; it starts with the base and the chosen region path |
| LitUtils.LitcalUrlNationWins | app/dol_liturgy/lit_utils.py:158-161 | given a truthy nation, the diocese does not change the URL |
| LitUtils.LitcalUrlYear | app/dol_liturgy/lit_utils.py:164-166 | the year only appends "/YEAR", and only when truthy; 0 and None add nothing |
| LitUtils.LitcalUrlGeneralRoman | app/dol_liturgy/lit_utils.py:162-163 | with no nation and no diocese the path is the base itself |
| Calendar.RegionKey | app/commands.py:75 | the region key is the diocese if truthy, else the nation if truthy, else "GR" |
| Calendar.RegionOppositeToUrl | app/commands.py:74-75 | with both a nation and a diocese, the key names the diocese while the URL fetches the nation's calendar |
| Calendar.DistinctKeysSpec | app/commands.py:88-93 | the grouping keys are distinct and are exactly the "Y-M-D" keys of the events |
| Calendar.EventInExactlyOneGroup | app/commands.py:89-93 | each event is in its own date's group as often as in the input, and in no other group |
| Calendar.GroupKeepsOrder | app/commands.py:89-93 | a group keeps the events' input order, and all its events share its key |
| Calendar.GroupNonEmpty | app/commands.py:91-93 | every key that occurs has a non-empty group |
| Calendar.GroupByDate | app/commands.py:88-93 | the loop builds a dictionary whose keys come in first-appearance order and whose value per key is that key's events in input order |
| Calendar.PrimaryEvent | app/commands.py:97 | the chosen event has a grade at least that of every event of the day, and is the first with that grade |
| Calendar.DayEntry | app/commands.py:99-108 | the row of one date: date key, region, the primary event's year, name, grade, localised grade and season, and the whole group as full data; Calendar.DayRowOf ties it to the day's first maximum |
| Calendar.SaveDays | app/commands.py:95-110 | one row per distinct date, in key order; each row's full data is exactly that day's group and its fields come from the primary event; the count equals the number of distinct dates |
| Calendar.GivesUp | app/commands.py:78 | the command stops on an error, on missing or empty data, or when "litcal" is not in the data (a substring of a text answer, a key of a JSON object); Calendar.FetchCalendar states the outcome |
| Calendar.FetchCalendar | app/commands.py:74-110 | the cache is bypassed and left unchanged; an error, missing data or a missing "litcal" key gives up, an empty event list saves nothing, otherwise the days are saved as described above |
| BibleApi.WithoutBibleDbs | app/dol_bible/bible_routes.py:37-41 | teardown keeps exactly the attributes whose names do not start with "bible_db_", with their values |
| BibleApi.TeardownIdempotent | app/dol_bible/bible_routes.py:37-41 | a second teardown removes and closes nothing |
| BibleApi.RequestGlobals.TeardownBibleDbs | app/dol_bible/bible_routes.py:34-41 | removes every "bible_db_" attribute, leaves all others untouched, and closes exactly the removed values other than None |
| BibleApi.TranslationFor | app/dol_bible/bible_routes.py:58-61 | the name is the configured name of the abbreviation, falling back to the abbreviation |
| BibleApi.TranslationListed | app/dol_bible/bible_routes.py:56-62 | every file "STEM.db" is listed with abbreviation STEM |
| BibleApi.TranslationsFromDbFiles | app/dol_bible/bible_routes.py:56-62 | every listed entry comes from a file of the directory that ends in ".db" |
| BibleApi.TranslationsOfCount | app/dol_bible/bible_routes.py:56-62 | there is one entry per ".db" file, never more than there are files |
| BibleApi.GetTranslations | app/dol_bible/bible_routes.py:52-65 | a missing directory gives 500 "Bible data directory not found."; otherwise the loop lists one entry per ".db" file, in listing order |
| BibleApi.BuildReference | app/dol_bible/bible_routes.py:135-143 | the reference is exactly the book, then " CHAPTER" when the chapter is truthy, then ":VERSE" when verse_start is truthy and, only then, "-VERSE" when verse_end is truthy; reading back the text after the book returns exactly the numbers shown |
| BibleApi.ReadTailOf | app/dol_bible/bible_routes.py:136-143 | the text after the book in a built reference reads back as the shown chapter, start verse and end verse |
| BibleApi.TextReference | app/dol_bible/bible_routes.py:145 | the reference of a text search; BibleApi.IntelligentSearch states where it is used |
| BibleApi.IntelligentSearch | app/dol_bible/bible_routes.py:109-147 | an empty stripped query gives 400 before parsing; a database error gives 500 and wins over an empty result (404); a success carries the upper-cased version (default "kjv", lower-cased on input), its configured name, the search type, the verses and the reference: exactly the built reference for a non-text search, 'Text search for "q"' otherwise |
| Text.ReplaceDbSuffix | app/dol_bible/bible_routes.py:58 | `replace('.db', '')` of "STEM.db" is STEM when STEM has no ".db" of its own |
| ContentRoutes.LoadJsonData | app/routes.py:10-17 | a parsed file is returned as is; otherwise the fallback is [] exactly when the name contains "json", and {} otherwise |
| ContentRoutes.JsonImpliesS | app/routes.py:17 | a name containing "json" always contains 's', so the second test never decides |
| ContentRoutes.SafeFilename | app/routes.py:65 | the sanitised name holds only alphanumerics, '-' and '_', is an order-preserving subsequence of the input, and keeps every allowed non-whitespace character as often as the input holds it |
| ContentRoutes.SafeFilenameIdempotent | app/routes.py:65 | sanitising twice equals sanitising once |
| ContentRoutes.SafeFilenameNoStrip | app/routes.py:65 | when no whitespace character is alphanumeric, the trailing `rstrip` removes nothing |
| ContentRoutes.UploadImage | app/routes.py:51-81 | the checks run in this order: missing file part, empty upload filename, missing form filename (each 400), then an empty sanitised name (400 "Invalid filename provided"); then a save error gives exactly 500 with its message, and otherwise the image is saved as "SAFE.webp" with the message naming it; a save happens exactly when every check passes and no error is raised |
| ContentRoutes.ParagraphBodyLines | app/routes.py:100 | the body is exactly one "<p>LINE</p>" per line of the text |
| ContentRoutes.ParagraphBody | app/routes.py:100 | the stored body; ContentRoutes.ParagraphBodyLines states what it is |
| ContentRoutes.ParagraphBodySingleLine | app/routes.py:100 | a text without newlines becomes a single paragraph |
| ContentRoutes.NewDiscourse | app/routes.py:95-102 | the new entry's id is "disc-" followed by the whole-second timestamp, its reference is "DISC-" followed by the formatted time, and its date is the formatted date; it has the given title, the paragraph body and no resources |
| ContentRoutes.NewDiscourseIdsDiffer | app/routes.py:96 | discourses created at different whole seconds get different ids |
| ContentRoutes.ContentFile.AddDiscourse | app/routes.py:85-117 | a body that is not JSON gives 500; a missing title or body gives 400 and the file is untouched; an unreadable file gives 500; otherwise the new discourse is inserted at index 0 with the old entries after it in order |
| Registry.UserByEmail | app/dol_db/dbops.py:9-10 | finds a user exactly when one has that email |
| Registry.RoleNamed | app/dol_db/dbops.py:33 | finds a role of the given name exactly when one exists, which is all `.first()` without an ordering promises |
| Registry.CheckNewUser | app/dol_db/dbops.py:15-18 | a taken email is refused with the email message even when the username is taken too; else a taken username is refused; both free passes |
| Registry.NewUser | app/dol_db/dbops.py:20-35 | a new user carries the given id, name, other names, email, username, organisation, website and password hash; it is active and not authorized, and holds the Reader role exactly when one exists |
| Registry.AppendKeepsUnique | app/dol_db/dbops.py:15-18 | adding a user with a free email and a free username keeps both columns unique |
| Registry.CreatedUserFound | app/dol_db/dbops.py:9-39 | the created user is the one looked up by its email |
| Registry.DefaultRoles | app/dol_db/dbops.py:113-118 | seeding makes four roles, ids 1 to 4: Admin, Editor, Writer and Reader, each with the source's description |
| Registry.SeededRoles | app/dol_db/dbops.py:109-120 | a non-empty role table is kept; an empty one gets exactly the four default roles |
| Registry.SeedRolesIdempotent | app/dol_db/dbops.py:107-121 | seeding twice equals seeding once, and a seeded empty table has the Reader role |
| Registry.NewUserAfterSeedIsReader | app/dol_db/dbops.py:33-35 | a user created after seeding gets the Reader role |
| Registry.Store.CreateUser | app/dol_db/dbops.py:13-39 | a refused user adds nothing; otherwise exactly one user is added; uniqueness is kept |
| Registry.Store.AddDiscourse | app/dol_db/dbops.py:66-84 | adds one unapproved discourse whose resources are the given ones in input order |
| Registry.Store.AddComment | app/dol_db/dbops.py:86-103 | a missing or unapproved discourse is refused and adds nothing; otherwise exactly one unaudited comment is added |
| Registry.Store.SeedRoles | app/dol_db/dbops.py:107-121 | the role table becomes the seeded table with distinct role names, and the other tables do not change |
| DiscourseSearch.Joined | app/dol_discourse/disc_utils.py:34-38 | each joined row pairs a post with its own author, subcategory and category, each taken from its table |
| DiscourseSearch.JoinedPost | app/dol_discourse/disc_utils.py:34-38 | a post is joined exactly when its author, subcategory and category exist |
| DiscourseSearch.Relevance | app/dol_discourse/disc_utils.py:23-31 | the first matching column decides the weight: title 1, else author names 2, else body 3, else subcategory or category 4, and 5 exactly when no column matches |
| DiscourseSearch.Matches | app/dol_discourse/disc_utils.py:42-49 | the filter's `or_` of the six `ilike` tests; DiscourseSearch.MatchesIffRelevant relates it to the weight |
| DiscourseSearch.MatchesIffRelevant | app/dol_discourse/disc_utils.py:23-49 | a row passes the filter exactly when its weight is below 5 |
| DiscourseSearch.RankLeTotalPreorder | app/dol_discourse/disc_utils.py:51 | the ordering by relevance, then newest date, is a total preorder |
| DiscourseSearch.Ranked | app/dol_discourse/disc_utils.py:34-51 | the ordered matches before the limit; DiscourseSearch.RankedSpec and DiscourseSearch.RankedPermutes state what it holds |
| DiscourseSearch.Limit | app/dol_discourse/disc_utils.py:52 | `.limit(n)` keeps the first n rows (all of them when there are fewer), and a negative n keeps every row |
| DiscourseSearch.SearchDiscourses | app/dol_discourse/disc_utils.py:4-59 | None, empty and one-character queries give []; otherwise at most `limit` posts from the ranking |
| DiscourseSearch.DefaultLimitResults | app/dol_discourse/disc_utils.py:4 | with the default limit at most seven posts are returned |
| DiscourseSearch.RankedSpec | app/dol_discourse/disc_utils.py:40-51 | the ranking is ordered and holds exactly the approved matching rows with their weight, which is below 5 |
| DiscourseSearch.RankedPermutes | app/dol_discourse/disc_utils.py:51 | ordering neither adds nor drops a row |
| DiscourseSearch.SearchResultsRanked | app/dol_discourse/disc_utils.py:51-57 | results are the first entries of the ranking, approved and in order; no unreturned match ranks before a returned one |
| DiscourseSearch.SearchByAuthor | app/dol_discourse/disc_utils.py:61-82 | a falsy id gives []; otherwise a permutation of that author's approved posts |
| DiscourseSearch.SearchByAuthorSpec | app/dol_discourse/disc_utils.py:71-80 | the result holds exactly that author's approved posts, newest first |
| CharitySearch.CategoryApplied | app/dol_charity/charity_utils.py:36-44 | the category filter applies only for a truthy filter other than 'all' that names an enum member; unknown names are ignored |
| CharitySearch.LexLeTotal | app/dol_charity/charity_utils.py:51 | any two names are ordered one way or the other |
| CharitySearch.LexLeTrans | app/dol_charity/charity_utils.py:51 | name order is transitive |
| CharitySearch.NameLeTotalPreorder | app/dol_charity/charity_utils.py:51 | ordering by name is a total preorder on charities |
| CharitySearch.Window | app/dol_charity/charity_utils.py:50-51 | the page is the contiguous run starting at the (clamped) offset, with `per_page` rows or fewer at the end |
| CharitySearch.Ordered | app/dol_charity/charity_utils.py:22-51 | the selected charities in name order; CharitySearch.OrderedSpec states what it holds |
| CharitySearch.SearchCharities | app/dol_charity/charity_utils.py:8-57 | after the stepwise filters the total counts exactly the selected charities before paging, and the page is cut from the name-ordered selection at (page-1)*per_page |
| CharitySearch.TotalCounts | app/dol_charity/charity_utils.py:47 | the counted rows are the vetted, text-matching, category-matching charities, each as often as it occurs |
| CharitySearch.OrderedSpec | app/dol_charity/charity_utils.py:22-51 | the ordered rows are name-sorted and are exactly the selected charities, all of them |
| CharitySearch.PageSpec | app/dol_charity/charity_utils.py:50-51 | a page holds at most `per_page` vetted, selected charities in name order |
| CharitySearch.DefaultPageSize | app/dol_charity/charity_utils.py:8 | with the default per_page a page holds at most nine charities |
| CharitySearch.PagesCover | app/dol_charity/charity_utils.py:50-51 | pages 1..n laid end to end are the first n*per_page ordered rows: no charity is skipped or repeated |

## Left out

- The HTTP request (`requests.request`), `fetch_readings_async` and `get_daily_readings`: these are network I/O, asyncio and the USCCB plugin. `LitUtils.SafeFetch` takes the network's answer as a parameter.
- `time.time()` is a float; the model passes integer seconds, read separately before and after the request.
- `urlencode`: the encoded parameters and headers reach `LitUtils.CacheKey` as strings from the caller. `fetch_calendar` uses the encoding of its one default header.
- LitUtils.CacheKeyInjective: proved only for parts without '|', since a '|' inside a URL or an encoding can make two keys collide.
- Calendar.FetchCalendar: a JSON answer is modelled as `null` or as an object whose "litcal" value is a list of events. A JSON list or a non-list "litcal" value is not modelled. A text answer that mentions "litcal" is modelled as the `AttributeError` it raises (`Unhandled`).
- Calendar.SaveDays: `strptime` failures and the upsert semantics of `db.session.merge` are not modelled. The rows are those handed to `merge`, with the "Y-M-D" key as their date.
- `bible_home`, `inject_now` and `get_metadata`: these are template rendering and a SQL query over the translation databases.
- `parse_query`, `fetch_from_db` and `get_bible_db` are not part of this model (see above); they are parameters of `BibleApi.IntelligentSearch`.
- BibleApi.TranslationListed: stated for file names with a single ".db". `replace` removes every ".db", so "a.db.db" is listed as "a".
- BibleApi.IntelligentSearch: the verses are passed through as rows; `dict(row)` is not modelled.
- Image conversion with PIL and file writes: `ContentRoutes.UploadImage` takes the raised message as a parameter.
- ContentRoutes.SafeFilename: `str.isalnum` is a parameter; `rstrip` strips ASCII whitespace only.
- LitUtils.EffectiveTimeout: the timeout is `int | float | None` in the source and `Option<int>` here; a fractional timeout such as 0.5, which is truthy, is not modelled.
- ContentRoutes.ContentFile.AddDiscourse: the id, reference and date come from the clock as the caller formats them; a 500 reply does not carry the exception's text; title and body values that are not strings are not modelled.
- Password hashing (werkzeug) is a parameter of `Registry.Store.CreateUser`.
- Registry: row ids are the row's position plus one. Database integrity errors, commit failures and the `print` messages of `seed_roles` are not modelled. `add_discourse` and `add_comment_to_discourse` do not check the user id, and neither does the model.
- `get_approved_discourses` and `get_discourse_with_comments` (eager loading and `paginate`/`first_or_404`) are ORM query shapes with no rule of their own.
- SQL `ilike` with `%term%` is modelled as a case-insensitive substring test with ASCII case folding. A '%' or '_' typed by a user is a wildcard in the original but a literal character here.
- DiscourseSearch.Joined: ids are taken as primary keys, so a post joins at most one row.
- DiscourseSearch.SearchDiscourses and CharitySearch.SearchCharities: the database leaves the order among equal sort keys open; the model keeps input order.
- Calendar.LiturgicalDay: app/commands.py:6 imports `LiturgicalDay`, `Category` and `SubCategory` from app/dol_db/models.py, which defines none of them. As written, the import fails and `fetch_calendar` cannot run. The model takes the row as the constructor call at app/commands.py:99-108 builds it: the date, the region key, and the primary event's year, name, grade, grade name and liturgical season, with the whole group of events as its full data.
- `Charity`, `CharityCategory` and `CharityCategoryDef` are imported from app/dol_db/models.py (app/dol_charity/charity_utils.py:4), which does not define them. The model takes the enum's member names as a parameter, and a charity's categories are a set of member names.
- `Category` and `SubCategory` are imported from app/dol_db/models.py (app/dol_discourse/disc_utils.py:1), which defines neither, and `DiscourseBlog` there has no `subcategory_id` column, though the search joins on it (app/dol_discourse/disc_utils.py:37). The model supplies `Post.subcategoryId` and the `SubCategory` and `Category` rows itself, with an id, a name and, for a subcategory, its category id. As written, the import would fail before the search runs; the model describes the search as the join intends it.
- The `Pagination` object of `search_charities`, `load_app_json`, and the inline copy of the search in `app/dol_charity/charity_routes.py` are not modelled.
- `upper`, `lower`, `strip` and `isspace` are the ASCII cases of Python's Unicode operations.
