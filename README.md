# Mnet chart spider, modelled in Dafny

The `mnet_chart` spider of the `kpop_crawler` project collects the Mnet
annual top-100 chart. It does three things:

- **Seeding** (`start_requests`): for every year of an inclusive range
  (2011 to 2011 by default) it requests chart pages 1 and 2, in year order
  and page 1 before page 2.
- **Chart numbering** (`parse_chart`): on each chart page it requests every
  song link in order. The rank is computed from the link's position: it
  counts from 1 on page 1 and from 51 on any other page.
- **Song records** (`parse_song_info`): on each song page it builds one
  record with these fields:
  - the date and rank carried with the request;
  - the id, which is piece 3 of the URL split on runs of `/`;
  - the stripped title;
  - the duration, with every `(` and `)` deleted;
  - the artist;
  - six contributor-role lists. The staff block's text nodes are filtered
    of markup debris and lose their first "참여스탭" (participating staff)
    header. A single scan then files each item under the role named by the
    most recent label.

The model is split into these modules:

| module | file | contents |
|---|---|---|
| `Wrappers` | wrappers.dfy | `Option` and `Result` |
| `PySeq` | pyseq.dfy | Python's `filter` and `list.remove`, and the subsequence relation |
| `PyStr` | pystr.dfy | `t in s`, `str(n)`, `str.strip()`, `str.replace(c, '')` |
| `PyRe` | pyre.dfy | `re.split('/+', s)` and its inverse |
| `RoleScan` | role_scan.dfy | the label scan, with a position-by-position reference definition |
| `MnetChart` | mnet_chart.dfy | the spider itself |

The loops of the source are methods with loops:

- `StartRequests` is split into `ChartLocations` (nested loops) and its
  yield loop;
- `ParseChart`;
- `ScanRoles`.

Each of them is proved against a specification function (`Seeds`,
`RoleList`) or states its result outright. `ParseSongInfo` builds the
record by successive updates, as the source mutates its dict. Its failures
come back as a `Fault` in the order the source would raise them.

Selector (XPath) results are inputs to the model:

- a missing `extract_first()` is `None`;
- `extract()` is a sequence of strings;
- `response.urljoin` is a function parameter.

Some points of the code the model keeps exactly:

- The id is the raw string `re.split('/+', url)[3]`, the fourth piece of
  the split. It is never converted to an integer.
- A missing duration raises, because `None.replace` fails. It is the fault
  `TimeMissing`.
- A missing title raises, because `None.strip()` fails. It is the fault
  `TitleMissing`.
- Every `(` and `)` is deleted from the duration, wherever it occurs.

## Model

| member | source | states |
|---|---|---|
| MnetChart.ChartUrl | kpop_crawler/spiders/mnet_chart.py:11 | `chart_url.format(year, page)`: the fixed head, the year, `?pNum=`, the page |
| PyStr.Decimal | kpop_crawler/spiders/mnet_chart.py:35 | `str(n)` as `format` renders an int; it is never empty |
| MnetChart.ChartUrlInjective | kpop_crawler/spiders/mnet_chart.py:11 | two (year, page) pairs give the same chart URL only when they are equal |
| MnetChart.SplitAtQuery | kpop_crawler/spiders/mnet_chart.py:11 | the year text and the page text are recovered from a chart URL around `?pNum=` |
| PyStr.DecimalRoundTrip | kpop_crawler/spiders/mnet_chart.py:35 | reading back `str(n)` gives `n`; it is non-empty and made of digits and `-` |
| PyStr.NatDecimalRoundTrip | kpop_crawler/spiders/mnet_chart.py:35 | reading the digits of a natural number back gives that number |
| PyStr.DecimalInjective | kpop_crawler/spiders/mnet_chart.py:35 | different integers give different `str(n)` |
| MnetChart.YearRange | kpop_crawler/spiders/mnet_chart.py:32 | `range(start, end + 1)` holds `end - start + 1` years, `start + k` at position k, and none when `start > end` |
| MnetChart.YearCount | kpop_crawler/spiders/mnet_chart.py:32 | the length of `range(start, end + 1)`: `end - start + 1`, or 0 when `start > end` |
| MnetChart.Seed | kpop_crawler/spiders/mnet_chart.py:35 | the triple `(d, i, chart_url.format(d, i))` the loops append |
| MnetChart.Seeds | kpop_crawler/spiders/mnet_chart.py:31-35 | the loops record two triples per year |
| MnetChart.SeedsAt | kpop_crawler/spiders/mnet_chart.py:31-35 | position k holds year `start + k / 2`, with page 1 at even positions and page 2 at odd ones |
| MnetChart.SeedsInOrder | kpop_crawler/spiders/mnet_chart.py:31-35 | a triple lies in the year range on page 1 or 2; an earlier triple has an earlier (year, page) and another URL |
| MnetChart.SeedsProperties | kpop_crawler/spiders/mnet_chart.py:31-35 | every triple lies in the range on page 1 or 2; the triples are in strict (year, page) order with pairwise distinct URLs |
| MnetChart.DefaultSeeds | kpop_crawler/spiders/mnet_chart.py:11-13 | with the default years the seeds are pages 1 and 2 of the 2011 chart, with their literal URLs |
| MnetChart.SeedRequest | kpop_crawler/spiders/mnet_chart.py:37-38 | the request yielded for a triple: its URL, with date and page as `meta` |
| MnetChart.ChartLocations | kpop_crawler/spiders/mnet_chart.py:31-35 | the nested loops build exactly the triples `Seeds` describes |
| MnetChart.StartRequests | kpop_crawler/spiders/mnet_chart.py:28-38 | 2·(end − start + 1) requests (none for an empty range), each for its triple; dates in range, pages in {1, 2}, strict (date, page) order, distinct URLs |
| MnetChart.ParseChart | kpop_crawler/spiders/mnet_chart.py:40-59 | one request per link in link order, for `urljoin(link)`, with the chart's date; rank index+1 on page 1 and index+51 otherwise, so ranks are consecutive; 50 links give ranks 1–50 or 51–100 |
| PyRe.SplitSlashRuns | kpop_crawler/spiders/mnet_chart.py:81 | `re.split('/+', s)` yields at least one piece |
| PyRe.SplitWellFormed | kpop_crawler/spiders/mnet_chart.py:81 | pieces are slash-free and only the first and last may be empty; for non-empty `s`, the last is empty exactly when `s` ends with `/` |
| PyRe.SlashRunsOf | kpop_crawler/spiders/mnet_chart.py:81 | the separators consumed are one fewer than the pieces and each is a run of slashes |
| PyRe.SplitOfJoin | kpop_crawler/spiders/mnet_chart.py:81 | splitting well-formed pieces joined by slash runs gives back the pieces |
| PyRe.JoinOfSplit | kpop_crawler/spiders/mnet_chart.py:81 | joining the pieces of `s` by its slash runs gives back `s` |
| MnetChart.SongId | kpop_crawler/spiders/mnet_chart.py:81 | piece 3 of the split, kept as a string; it is slash-free, and the only failure is `IdIndexError` |
| MnetChart.SongIdOfPieces | kpop_crawler/spiders/mnet_chart.py:81 | the id of a URL built from pieces is the fourth piece, and the fault `IdIndexError` with fewer than four pieces |
| MnetChart.SongIdIsFourthPiece | kpop_crawler/spiders/mnet_chart.py:81 | every URL is its pieces rejoined; its id is the fourth piece, is slash-free, and is empty only when it is the last piece of a URL ending in `/` |
| MnetChart.SongIdExample | kpop_crawler/spiders/mnet_chart.py:81 | `http://host/a/123` has id `123` |
| PyStr.Strip | kpop_crawler/spiders/mnet_chart.py:82 | `strip()` gives a slice of the input with only whitespace cut off at either end, and its first and last characters are not whitespace |
| PyStr.IsSpace | kpop_crawler/spiders/mnet_chart.py:82 | the characters `strip()` removes: Python's `str.isspace` set, U+0009–U+000D, U+001C–U+0020, U+0085, U+00A0, U+1680, U+2000–U+200A, U+2028, U+2029, U+202F, U+205F, U+3000 |
| PyStr.StripIdempotent | kpop_crawler/spiders/mnet_chart.py:82 | stripping twice is stripping once |
| PyStr.DeleteChar | kpop_crawler/spiders/mnet_chart.py:85 | `s.replace(c, '')`: no `c` remains and the string never grows |
| PyStr.DeleteCharSpec | kpop_crawler/spiders/mnet_chart.py:85 | `replace(c, '')` leaves no `c`, keeps every other character in order and as often, and changes nothing when there is no `c` |
| MnetChart.NormaliseDuration | kpop_crawler/spiders/mnet_chart.py:85 | `time.replace('(', '').replace(')', '')`: no `)` remains and the text never grows |
| MnetChart.NormaliseDurationSpec | kpop_crawler/spiders/mnet_chart.py:84-85 | the duration has no `(` or `)`, keeps every other character in order and as often, and normalising it again changes nothing |
| PyStr.Contains | kpop_crawler/spiders/mnet_chart.py:91 | `t in s` holds exactly when `t` occurs at some position of `s` |
| PySeq.Filter | kpop_crawler/spiders/mnet_chart.py:91 | `filter` never lengthens the list and keeps only accepted items |
| PySeq.FilterIsSubsequence | kpop_crawler/spiders/mnet_chart.py:91 | `filter` keeps the order of the list |
| PySeq.FilterCounts | kpop_crawler/spiders/mnet_chart.py:91 | an accepted item occurs as often as in the input, a rejected one not at all |
| PySeq.FilterKeepsAll | kpop_crawler/spiders/mnet_chart.py:91 | a list whose items are all accepted passes unchanged |
| PySeq.FilterIdempotent | kpop_crawler/spiders/mnet_chart.py:91 | filtering twice is filtering once |
| MnetChart.IsData | kpop_crawler/spiders/mnet_chart.py:91 | the `filter` lambda: neither `\r\n\t\t` nor `&nbsp` occurs in the item |
| MnetChart.CleanLineInfo | kpop_crawler/spiders/mnet_chart.py:91 | `list(filter(...))` on the staff text nodes: never longer, and every kept item passes the lambda |
| MnetChart.CleanLineInfoSpec | kpop_crawler/spiders/mnet_chart.py:90-91 | no cleaned item contains `\r\n\t\t` or `&nbsp`; order is kept; every item free of both survives as often as it occurred |
| PySeq.FirstIndex | kpop_crawler/spiders/mnet_chart.py:92 | the position of the first occurrence of an item |
| PySeq.RemoveFirst | kpop_crawler/spiders/mnet_chart.py:92 | `list.remove(x)` succeeds exactly when `x` occurs; it deletes the first occurrence only, leaving one item fewer with the rest in order |
| MnetChart.StaffList | kpop_crawler/spiders/mnet_chart.py:91-92 | the cleaned list without its header: present exactly when the cleaned list holds the header, and then one item shorter |
| RoleScan.KeyAfter | kpop_crawler/spiders/mnet_chart.py:105-109 | `current_key` after a prefix; `KeyAfterIsNearestLabel` proves it is the nearest label before the end, or empty |
| RoleScan.RoleList | kpop_crawler/spiders/mnet_chart.py:106-112 | the list of one role after a prefix; `RoleListPicksLandings` proves it is the items at the landing positions of that role |
| RoleScan.RoleLabels | kpop_crawler/spiders/mnet_chart.py:94-101 | `attr_map` (`AttrMap`) has exactly the six role labels and maps them onto the six roles, one label per role |
| RoleScan.IgnoredLabelsApart | kpop_crawler/spiders/mnet_chart.py:103 | `ignored_attr_set` (`IgnoredLabels`) has five labels, none of them a role label |
| RoleScan.IsLabel | kpop_crawler/spiders/mnet_chart.py:107 | the test `item in attr_map or item in ignored_attr_set` |
| RoleScan.ScanRoles | kpop_crawler/spiders/mnet_chart.py:94-112 | the scan yields the six roles, each with exactly `RoleList` of the items |
| RoleScan.KeyAfterIsNearestLabel | kpop_crawler/spiders/mnet_chart.py:105-109 | `current_key` at a position is the nearest label before it, or empty when there is none |
| RoleScan.LandsFromKey | kpop_crawler/spiders/mnet_chart.py:106-112 | an item is filed under a role exactly when it is not a label and the current key maps to that role |
| RoleScan.RoleListStep | kpop_crawler/spiders/mnet_chart.py:106-112 | one scan step appends the item to the list of a role exactly when it lands there |
| RoleScan.RoleListPicksLandings | kpop_crawler/spiders/mnet_chart.py:106-112 | each role list is the items at exactly the positions whose nearest preceding label maps to that role, in increasing order |
| RoleScan.NoLabelInRoleList | kpop_crawler/spiders/mnet_chart.py:107-109 | no label (a role label or an ignored one) is ever filed |
| RoleScan.RoleListIsSubsequence | kpop_crawler/spiders/mnet_chart.py:106-112 | each role list keeps the order of the scanned items |
| RoleScan.RoleListsTotal | kpop_crawler/spiders/mnet_chart.py:103-112 | the six lists together are as long as the number of non-label items whose nearest label is a role label |
| RoleScan.DroppedItem | kpop_crawler/spiders/mnet_chart.py:103-112 | an item before every label, or after an ignored label, goes into no list |
| RoleScan.ChorusExampleKeys | kpop_crawler/spiders/mnet_chart.py:105-109 | the current key after each prefix of the chorus example |
| RoleScan.ChorusExample | kpop_crawler/spiders/mnet_chart.py:94-112 | vocals, lyricist, chorus and composer labels, each followed by a name, file Alice, Bob and Dan in their roles and drop Carol: the featuring, arranger and producer lists stay empty |
| MnetChart.ParseSongInfo | kpop_crawler/spiders/mnet_chart.py:61-114 | the faults in source order (id, title, duration, header), success exactly when none applies, and every field of the record: date, rank, id, stripped title, normalised duration, artist, the six role lists of the cleaned list without its header |

## Left out

- Scrapy's `Request` and `Response` objects, callbacks, `meta` passing and
  `dont_filter` are framework plumbing. Requests are plain values here, and
  `meta` is a field.
- XPath evaluation is a library. Selector results are parameters of
  `ParseChart` and `ParseSongInfo`.
- `response.urljoin` is URL reference resolution (section 5.2 of RFC 3986),
  done by a library. It is an uninterpreted function parameter.
- The logging setup in `__init__` and the `print` in `parse_chart` are I/O.
- Network fetching, concurrency and retries are done by the framework. Yield
  order is modelled as sequence order.
- The placeholder type values of the initial `song_info` dict are a shape
  hint only. `ParseSongInfo` starts the record from zero values and an empty
  role map. `ScanRoles` then creates the six empty role lists before its scan.
- The parameters of `StartRequests` are integers. They stand for the class
  defaults (the constants `DefaultStartYear` and `DefaultEndYear`) or for
  integer keyword arguments given in code.
- Spider arguments given on the command line are not modelled. Scrapy stores
  them as strings, and `range` or `self.end_year + 1` at
  kpop_crawler/spiders/mnet_chart.py:32 then raises `TypeError`.
- ParseSongInfo: `info_list.remove` changes the list in place, and the model
  computes the shortened list as a new value. No other code sees the list,
  so no aliasing is lost.
