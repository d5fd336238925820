# forecast_dash: the logic behind the dashboard's pages

forecast_dash is a Dash web application that shows economic time series with
their forecasts. Most of its code builds page layouts. A few parts make
decisions, and this Dafny project models those parts and proves properties
about them:

- **The Filter page** (`Filter` module). This covers the catalogue of data
  sources indexed by title, the name matcher (`match_names`), the tag matcher
  (`match_tags`), and the AND of the two into a sorted result list with its
  count message (`filter_results`). It also covers the sorted list of every
  tag the filter panel offers (`display_value`) and the panel's two inputs
  (`filter_panel_children`).
- **The series page** (`Pages` module). This covers the three
  confidence-band polygons and two lines that make up the forecast plot
  (`get_forecast_plot_data`), and the columns the forecast table shows for
  each selector value (`selected_column_map`). It also covers the decorator
  that fills a filter input from the URL parameters (`apply_default_value`).
- **Shared parts** (`Common` module). This covers the fields of the git
  version card, parsed from the output of `git show` (`component_git_version`),
  and the breadcrumb trail, where every crumb is a link except the last, which
  is the one active item (`breadcrumb_layout`).

Helper modules:

- `Strings`: Python's `str.split` with one separator character, `join`,
  case-insensitive substring search, and the decimal rendering of a count.
- `Sorting`: Python's ordering of strings and `sorted(set(...))`.
- `Wrappers`: an `Option` type.

A search's name terms come from `name_input.split(" ")` and are joined into
the pattern `t1|t2|...` for `re.search(..., re.IGNORECASE)`. The model reads
that pattern as "some term occurs in the title, ignoring letter case". As a
consequence, an empty term (from a trailing or doubled space) matches every
title, and the model proves it. The catalogue becomes a Python dict keyed by
title, so a repeated title appears once, in its first position, and holds its
last entry. The model keeps that behaviour (`Filter.IndexByTitle`).
`filter_results` skips the tag matcher only when `tags` is the string "". An
empty checklist list still goes through `match_tags`, and the empty set of
requested tags then keeps every series. The two cases agree in effect, and the
model keeps them apart as the code does.

## Model

| member | source | states |
|---|---|---|
| Filter.IndexByTitle | dash/pages.py:775-778 | the dict built from the catalogue has each title once, keyed in order of first occurrence, each holding the last catalogue entry with that title |
| Filter.IndexStep | dash/pages.py:777-778 | storing one more entry under its title turns the dict built from a prefix of the catalogue into the dict built from the longer prefix |
| Filter.IndexComplete | dash/pages.py:775-778 | the dict built from the whole catalogue is well formed: distinct keys, one entry per key, each stored under its own title |
| Filter.MatchNames | dash/pages.py:602-617 | the titles returned, in dict order, are those of the stored entries that pass the name search over the space-separated terms |
| Filter.MatchTags | dash/pages.py:619-634 | the titles returned, in dict order, are those of the stored entries whose tag set includes every requested tag; a string request is first split on "," |
| Filter.TitlesWhereMembers | dash/pages.py:609-615 | a title is matched iff some entry with that title passes the criterion |
| Filter.TitlesWhereInOrder | dash/pages.py:629-633 | the matched titles come one per passing entry, in the order the entries are visited, and every passing entry contributes |
| Filter.AllAcceptedKeepsAllTitles | dash/pages.py:609-615 | when every entry passes, the matcher returns every title in dict order |
| Filter.EmptyTagRequestMatchesAll | dash/pages.py:627-632 | an empty request is a subset of every tag set, so every title matches |
| Filter.TrailingSpaceMatchesEverything | dash/pages.py:607-613 | a name input ending in a space yields an empty term, which matches every title |
| Filter.DoubledSpaceMatchesEverything | dash/pages.py:607-613 | two spaces in a row in the name input yield an empty term, which matches every title |
| Filter.NameSearchExample | dash/pages.py:607-615 | "GDP" matches "Australian GDP Growth", where the title spells it in the same case, and "australian gdp growth", where it is spelt in lower case |
| Filter.NameSearchMissExample | dash/pages.py:607-615 | "GDP" does not match "Australian Unemployment" |
| Filter.TwoTagsText | dash/pages.py:624-627 | the tags string "a,b" (neither holding a comma) requests exactly the set {a, b} |
| Filter.TagSubsetExample | dash/pages.py:631 | tags are ANDed: a series with only one of two requested tags fails, one with both plus others passes |
| Filter.DictTitlesWhere | dash/pages.py:609-615 | over the dict values, a title is matched iff it is a key whose stored entry passes |
| Filter.IndexedTitlesWhere | dash/pages.py:775-790 | after indexing, a title is matched iff it is in the catalogue and its last entry passes |
| Filter.SortedMatches | dash/pages.py:775-794 | the result titles are strictly sorted, and a title is listed iff it is in the catalogue, passes the name search unless the name is "", and its last entry carries every requested tag unless tags is the string "" |
| Filter.EmptyTagListSelectsByName | dash/pages.py:624-631 | the empty list, whether a checklist value list or an empty option list, reaches the matcher as the empty request, and then a title is selected iff it is in the catalogue and passes the name search |
| Filter.FilterResults | dash/pages.py:763-832 | the callback raises iff the name is not a string, the tags value is neither a string nor a list of strings (the empty list included), or some selected title has no forecast file; otherwise it lists exactly the selected titles, strictly sorted, with the message for their count |
| Filter.ResultMessage | dash/pages.py:822-830 | no titles give "No results found", one gives "1 result found", n > 1 give the decimal n followed by " results found" |
| Filter.CountInResultMessage | dash/pages.py:822-830 | the count can be read back from the message |
| Filter.ResultMessageDeterminesCount | dash/pages.py:822-830 | two different counts never produce the same message |
| Filter.AllTags | dash/pages.py:732-737 | the offered tags are strictly sorted, and a tag is offered iff some catalogue entry carries it |
| Filter.FilterPanelInputs | dash/pages.py:685-714 | the name box's value is the "name" parameter (evaluated as a literal, else raw) or "" without it; the checklist's values are the "tags" parameter (evaluated as a literal, else split on ",") or [] without it; its options are the offered tags |
| Filter.FirstOccurrences | dash/pages.py:775-778 | dict key order: each title once, exactly the titles of the catalogue |
| Filter.FirstIndex | dash/pages.py:775-778 | the position where a title first occurs in the catalogue |
| Filter.FirstIndexInPrefix | dash/pages.py:777-778 | a title's first position does not change as later entries are added |
| Filter.FirstOccurrencesInOrder | dash/pages.py:775-778 | a key listed before another first occurs earlier in the catalogue: the keys are in first-occurrence order |
| Filter.LastWith | dash/pages.py:777-778 | the value a dict keeps for a title is an entry with that title that no later entry with that title follows |
| Filter.FirstOccurrencesSnoc | dash/pages.py:777-778 | storing under a new title appends it to the keys; storing under an existing title leaves the keys as they were |
| Filter.LastWithSnoc | dash/pages.py:777-778 | storing an entry makes it the value of its own title and leaves every other title's value unchanged |
| Pages.Band | dash/pages.py:101-131 | a band has the level's name and 2n vertices: the dates forward with the upper bounds, then the dates backward with the lower bounds |
| Pages.ForecastPlotData | dash/pages.py:91-143 | the plot has exactly five traces, in the order 95%, 75% and 50% band, forecast line, history line, with the forecast and history values at their dates |
| Pages.Reverse | dash/pages.py:101-108 | `reversed` puts element n-1-i at position i |
| Pages.BandPathReturns | dash/pages.py:101-104 | a band's x path is a palindrome: it comes back along the dates it went out on |
| Pages.BandSpansInterval | dash/pages.py:101-131 | a row's upper vertex and its mirrored lower vertex share the row's date, and when the row's lower bound does not exceed its upper bound, the lower vertex lies at or below the upper one |
| Pages.SelectedColumns | dash/pages.py:552-557 | a selector value has columns iff it is one of the four dropdown values, each maps to its listed columns, and every column it names is in the renamed frame |
| Pages.Cell | dash/pages.py:561-566 | a cell exists iff the column is one of the renamed frame's columns |
| Pages.TableRow | dash/pages.py:552-566 | a selector value shows cells iff it is a dropdown value, one per selected column |
| Pages.TableShowsBandBounds | dash/pages.py:552-566 | each CI selector shows exactly the lower and upper bounds of the band at that level, lower first; "Forecast" shows the forecast value |
| Pages.ApplyDefaultValue | dash/pages.py:574-594 | a component whose id is not a parameter is unchanged; otherwise only its `value` key (or `values` key when it has no `value`) changes, to the literal-evaluated parameter or, when evaluation fails, to the raw text or its comma-separated pieces |
| Pages.ChecklistFallbackKeepsParameter | dash/pages.py:588-592 | a checklist's fallback values contain no comma, and joining them with "," gives the parameter back |
| Common.ComponentGitVersion | dash/common.py:64-96 | with fewer than five lines every field keeps its default; with five or more, lines 0-3 are the hash, short hash, time and author; the patch URL is always the commit URL of the hash |
| Common.SubjectKeptWhole | dash/common.py:86-93 | when no line holds a newline, the subject split at newlines gives back lines 4 onwards, and the four fields plus those lines rebuild the output |
| Common.BreadcrumbLayout | dash/common.py:38-61 | one item per crumb, titles kept; every item but the last links to its crumb's address, and the last is the only active item |
| Common.OneActiveItem | dash/common.py:42-56 | exactly one item of a trail has the active class |
| Strings.Split | dash/pages.py:607 | a split gives at least one piece, and no piece holds the separator |
| Strings.JoinSplit | dash/pages.py:592 | joining a split with the same separator gives back the text |
| Strings.SplitJoin | dash/common.py:93 | splitting a join of separator-free pieces gives back the pieces |
| Strings.SplitWithoutSeparator | dash/pages.py:625 | a text without the separator is a single piece |
| Strings.SplitAtSeparator | dash/pages.py:625 | the text before the first separator is the first piece |
| Strings.TrailingSeparatorGivesEmptyPiece | dash/pages.py:607 | a trailing separator yields an empty last piece |
| Strings.DoubledSeparatorGivesEmptyPiece | dash/pages.py:607 | two separators in a row yield an empty piece after the first |
| Strings.EmptyTermOccurs | dash/pages.py:611-613 | the empty pattern matches every title |
| Strings.Decimal | dash/pages.py:825 | a count is written with decimal digits and no leading zero |
| Strings.ParseDecimalOfDecimal | dash/pages.py:825 | reading the digits back gives the count |
| Strings.DecimalInjective | dash/pages.py:825 | different counts are written differently |
| Strings.LowerChar | dash/pages.py:612 | each capital ASCII letter becomes the small letter at the same place in the alphabet, and every other character is kept |
| Strings.LowerCharIgnoresOnlyCase | dash/pages.py:612 | two characters fold alike iff they are equal or are the same ASCII letter in the two cases |
| Strings.ContainsIgnoringCaseAt | dash/pages.py:611-613 | a term is found iff at some position each of its characters agrees with the title's character there up to case |
| Strings.Lower | dash/pages.py:612 | case folding is applied character by character and keeps the length |
| Sorting.LessIrreflexive | dash/pages.py:793 | no string precedes itself |
| Sorting.LessTransitive | dash/pages.py:793 | string order is transitive |
| Sorting.LessTotal | dash/pages.py:793 | of two distinct strings, one precedes the other |
| Sorting.StrictlySortedIsDistinct | dash/pages.py:792-794 | a sorted list of a set holds each element once |
| Sorting.Minimum | dash/pages.py:793 | the least element of a non-empty set: a member that precedes every other member |
| Sorting.SortedList | dash/pages.py:792-794 | `sorted` of a set is strictly ascending, has the same elements and has as many elements as the set |

## Left out

- Page layouts, the Dash component tree, callbacks and their wiring are not modelled; only the values they compute are.
- Reading the data-sources catalogues and the pickled series data is not modelled. The catalogue is a parameter of the functions that read it. `display_value` reads `../shared_config/data_sources.json` and `filter_results` reads `data_sources.json`; the two files may differ, so `Filter.AllTags` and `Filter.FilterResults` take separate catalogue arguments.
- The `os.popen` call that runs git is not modelled. `Common.ComponentGitVersion` takes the output already split into lines, so `splitlines` and its treatment of `\r` are not modelled.
- `urlparse`, `parse_qsl`, `urlencode`, `parse_state` and `update_url_state` are not modelled. The URL parameters are a map given to the functions that use them.
- Pages.ApplyDefaultValue: `ast.literal_eval` is a parameter that returns `None` where Python raises, because a Python literal parser is outside this model.
- Pages.ApplyDefaultValue: a component whose `id` is not a string is treated as having no parameter. The source would look such an id up in the parameters.
- Filter.MatchNames: search terms are read as literal text. Regular-expression metacharacters in the name input (`.`, `*`, `(`, ...) are not interpreted, and a malformed pattern, which would raise in `re.search`, is not modelled.
- Filter.MatchNames: letter case is ignored for ASCII letters only. Python's Unicode case folding is not modelled.
- Pages.TableRow: `round(4)` on the table values and floating-point arithmetic are not modelled; values are reals. Dates are integers. The table's leading "Date" column (the frame's index) is not part of the row the model returns; the row holds the selected value columns only.
- Pages.ForecastPlotData: line colours, fill modes, markers and dash styles are not modelled; a trace is its name and its vertices. Dates are integers, so the `to_pydatetime` conversion of the band's x values is not modelled.
- The forecast frame's columns are taken to be `forecast`, `LB_50`, `UB_50`, `LB_75`, `UB_75`, `LB_95` and `UB_95`. A frame without them is not modelled.
- The result cards of `filter_results` (thumbnail figures and links to `/series?title=...`) are not modelled; only the result titles and the count message are.
- Common.BreadcrumbLayout: requires at least one crumb, because the source takes `crumbs[-1]` unguarded and raises on an empty trail.
- Choosing a forecasting model and a leaderboard of models are not part of the dashboard code modelled here. The page only displays the model name it receives.
- The name and tag criteria are checked against the catalogue's titles and tags only, as the code does. The forecast store is read afterwards, once per listed title, to draw its thumbnail.
- Filter.FilterResults: a name that is a malformed regular expression (such as "(CPI") makes `re.search` raise `re.error`; the model reads terms as literal text and lists results for it instead.
- Filter.FilterResults: of the forecast store only whether a title's file exists is modelled (the set `forecastFiles`). A file that exists but cannot be unpickled, or series data the thumbnail cannot draw, would also raise; neither is modelled.
- Filter.TagsInput: only a string or a list of strings is accepted (an empty option list is the empty list). A tuple or set of strings that `ast.literal_eval` returns would also be accepted by `set(tags)`; such values fall under `Pages.OtherValue` and are treated as raising.
- Filter.FilterResults: a tags value of a Python type the model does not name (`Pages.OtherValue`) is treated as raising. In Python, `set(tags)` accepts any iterable of hashable values, such as a tuple of strings, and the match would go on.
