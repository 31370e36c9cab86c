# Ningbo district map viewer, modelled in Dafny

The viewer is a single `window.onload` closure in `map.js`. It loads a dataset
of district boundaries, lists the districts in a paged sidebar, and draws one
polygon per district on a Tianditu map. The sidebar list can be filtered by
county and by a search text. Clicking a row or a polygon selects that district.

This project models that closure's state and its event handlers:

- `render` (filter, clamp, slice, pager) and `updateMapPolygons`;
- `selectDistrict`;
- the county, search, previous, next and page-size handlers;
- `loadDataset`, as its synchronous reset and the continuation that runs once the file arrives;
- the derivations inside `initDatasets`.

Modules:

- `Wrappers`: `Option`.
- `Text`: ASCII lowercasing, substring search, decimal rendering of counters, and the string order and sort used by `.sort()`.
- `Districts`: the records of a dataset file, the two polygon styles, and the polygon registry entry.
- `Filtering`: the county and name filters of `render`, and their one-pass reference definition.
- `Paging`: page count, clamping, the page window, and the pager label and buttons.
- `Dataset`:
  - the shapes a dataset file can take;
  - the county histogram and the county filter's options;
  - positional ids and the polygon and information-window registries;
  - the dataset index read by `initDatasets`.
- `Viewer`: the class `MapViewer`, whose fields are the closure's `let` variables plus the parts of the page and map it writes. Its methods are the event handlers.

The map widget is kept as abstract state:

- the style of each registered polygon;
- the ids whose overlays are shown;
- the information window that is open;
- the last viewport request.

The DOM list is kept as its rows (id and text) and the set of row ids carrying the `selected` class.

The closure invariant is `MapViewer.Valid`:

- a positive page size and a page from 1 up;
- the same keys in `polygons` and `infoWindows`;
- at most the selected district's polygon in the selected style;
- the `selected` class on exactly the listed row of the selected district.

The style part holds in one direction only. The selected id can lack a styled polygon, for two reasons:

- `selectDistrict` records an id with no registered polygon (`map.js:114-118`);
- a polygon clicked between the reset of `loadDataset` and the arrival of the new file selects an id whose new polygon is created with the default style.

## Model

| member | source | states |
|---|---|---|
| Text.IncludesIffOccurs | map.js:50 | `includes` holds exactly when the query occurs at some position of the lowercased name |
| Text.Decimal | map.js:82 | a counter is written as a non-empty run of digits, with a leading `0` only for zero |
| Text.DecimalRoundTrip | map.js:82 | reading the digits of a rendered counter gives back the counter |
| Text.StrLeTotal | map.js:261 | any two county names are ordered one way or the other by `.sort()`'s order |
| Text.StrLeAntisymmetric | map.js:261 | two names ordered both ways are equal |
| Text.StrLeTransitive | map.js:261 | the order of `.sort()` is transitive |
| Text.SortCorrect | map.js:261 | `Sort` (the `.sort()` of the county keys) returns a permutation of its input in ascending order |
| Text.SortedUnique | map.js:261 | two ascending lists with the same elements are equal, so the sorted order is determined by the elements alone |
| Text.SortIgnoresOrder | map.js:261 | any reordering of the keys sorts to the same list, so the order `Object.keys` lists them in does not reach the county filter |
| Filtering.FilteredSpec | map.js:41-53 | `Filtered` (the county and name filters of `render`): the filtered list keeps the order of `allDistricts`; a district is in it iff it is in `allDistricts`, matches the county unless that is `all`, and its lowercased name contains the lowercased query unless the query is empty |
| Filtering.FilteredIsOnePass | map.js:41-53 | `Filtered`, the two chained `.filter` calls, gives the same list as one pass that keeps each district meeting both conditions |
| Paging.TotalPagesIsCeiling | map.js:59 | `TotalPages`, the page count, is the least `t` with `n <= t * size`, and it is 0 exactly for an empty list |
| Paging.ClampPage | map.js:60 | the clamped page is at least 1 and at most the page count (or 1 when there are no pages); an in-range page is kept, a page below 1 or an empty list gives 1, a page past the end gives the last page |
| Paging.WindowSpec | map.js:61-63 | `PageWindow`: the visible rows are `filtered[(p-1)*size .. min(p*size, n)]` for the clamped page `p`; there are at most `size` of them, and at least one when the filtered list is non-empty |
| Paging.EveryRowOnOnePage | map.js:59-63 | every filtered row appears on exactly one page, at its index modulo the page size, and that page survives clamping |
| Paging.PagerMatchesHandlers | map.js:82-84 | `PagerOf`: once the page is clamped, prev is disabled iff the prev handler would not move, and next is disabled iff the next handler would not move |
| Paging.LabelRoundTrip | map.js:82 | the page label of `PagerOf` reads back as the current page and the page count, with 1 in place of a zero page count |
| Paging.TwentyFiveRowsScenario | map.js:59-84 | 25 rows at 10 per page: three pages, label `1/3` with prev disabled on page 1, rows 20 to 24 on page 3, where next is disabled and the next handler's guard blocks a further step |
| Dataset.Normalize | map.js:221-224 | a failed request or a `null` body is dropped by the `.catch`; a bare array is the record list under the title `Map`; an envelope's title is its `dataset_name` when that is non-empty and `Map` otherwise, and its records are its `features` when present and none otherwise; any other value gives no records under `Map` |
| Dataset.CountyCountsExact | map.js:257-260 | `CountyCounts`, the `reduce`, holds a key exactly for each county that occurs, mapped to its number of occurrences |
| Dataset.CountyKeysSpec | map.js:257-261 | `CountyKeys`, the histogram's keys (listed in insertion order), are its domain, have no repeats, and their counts sum to the number of records |
| Dataset.SortedKeysSpec | map.js:261 | the sorted keys are ascending, distinct, exactly the counties that occur, and their counts sum to the number of records |
| Dataset.OptionValuesSpec | map.js:263 | the county filter's values after a load are `all` followed by the distinct counties in ascending order |
| Dataset.OptionTextsSpec | map.js:251-264 | the `all` option reads `全宁波 (n)` with the number of records, and each county option reads `county (k)` with the number of records of that county |
| Dataset.ThreeRecordsOptions | map.js:249-266 | records in counties A, A and B give the `all` option counting 3, then A counting 2 and B counting 1, in that order |
| Dataset.ThreeRecordsTexts | map.js:251-264 | those three options read `全宁波 (3)`, `A (2)` and `B (1)` |
| Dataset.ThreeRecordsValues | map.js:263 | those three options carry the values `all`, `A` and `B` |
| Dataset.CountyOptionsSpec | map.js:249-266 | `CountyOptions`: the county filter has the `all` option carrying the record count, then one option per distinct county in strictly ascending order, each with its number of records, and those counts sum to the `all` count |
| Dataset.LoadedDistrictsSpec | map.js:271-272 | positional ids are distinct, and for every county other than `all` the option's count is the number of districts the county filter keeps once that option is chosen with an empty search |
| Dataset.AllCountyCollision | map.js:263 | a county literally named `all` gets an option valued `all`, counted 1 in a two-record dataset, yet choosing it keeps both records, because `render` reads `all` as no county filter |
| Dataset.RegistrySpec | map.js:268-290 | `PolygonRegistry` and `InfoRegistry`, the `polygons` and `infoWindows` maps, hold exactly the ids of records whose first ring has points; each polygon is that ring in the default style, and each window shows the record's name and county |
| Dataset.SelectorOptions | map.js:319-324 | one selector option per index entry, valued by its file; its text is the entry's name if that is non-empty, else its id if that is non-empty, else its file |
| Dataset.StartupPlan | map.js:304-346 | without a selector, or when the index fetch fails or its body is `null`, the default file is loaded and the selector is untouched; whenever the selector exists and the index yields a list (`DatasetList`: the array itself or its `datasets`, else none), the selector holds exactly that list's options and the first entry's file is loaded, or the default file when the list is empty |
| Viewer.HighlightSpec | map.js:67-79 | the rows marked `selected` are the selected district's row if the page lists it, and no row otherwise |
| Viewer.ShownOverlaysExact | map.js:139-149 | `ShownOverlays`: the map shows exactly the filtered districts that have a registered polygon |
| Viewer.Toggle | map.js:93-114 | clicking the selected district clears the selection; any other click selects the clicked id |
| Viewer.RenderRows | map.js:66-79 | the loop emits one row per district of the page, with its id and `name (county)` text, and marks exactly the selected district's row |
| Viewer.AtMostOneSelectedStyle | map.js:104-119 | while styles agree with the selection, at most one polygon is in the selected style |
| Viewer.RestyleSpec | map.js:94-95 | `Restyle`, a `setStyle` on a registered polygon changes that polygon's style only; an id with no polygon changes nothing |
| Viewer.ReselectStyles | map.js:88-128 | `Reselect`, the restyling of a click: after a click, the newly selected polygon is in the selected style, the clicked and previously selected polygons are otherwise in the default style, every other polygon keeps its style, and no ring changes |
| Viewer.ReselectKeepsStylesAgree | map.js:88-128 | a click keeps the selected style on at most the selected district |
| Viewer.ShowOverlays | map.js:139-149 | the `forEach` of `updateMapPolygons` adds the overlays of `ShownOverlays`, in list order |
| Viewer.RenderView | map.js:36-85 | `render` on values: the filtered list, the shown overlays, the page clamped from the requested one, the page's rows with the selected row marked, and the pager |
| Viewer.SelectOn | map.js:88-131 | `selectDistrict` on values: the selection toggles; the polygons are restyled as `Reselect` says; the marked rows follow the selection; the view fits the selected polygon's ring and its information window opens at the click, or at the polygon's centre, only when that district has a polygon; otherwise the window is closed and the view is kept |
| Viewer.RegisterFeatures | map.js:268-290 | the loop numbers the records by position and builds both registries, with equal keys and every polygon in the default style |
| Viewer.InstallOn | map.js:221-296 | the continuation on values: title, numbered records, county options, both registries, and the viewport fitted to all first rings (kept when there are none) |
| Viewer.MapViewer.constructor | map.js:3-26 | the initial state: nothing loaded, page 1 of size 10, no selection, the filter on `all`, and the initial centre and zoom; the pager, which the page's markup sets before any `render`, is assumed to read `1/1` with both buttons disabled |
| Viewer.MapViewer.Render | map.js:36-85 | the state after `render` is the rendered view of the current inputs, with the page clamped from the old one |
| Viewer.MapViewer.SelectDistrict | map.js:88-137 | the closure invariant is kept, the selection toggles, and the polygons, information window and viewport change as `SelectOn` says |
| Viewer.MapViewer.OnCountyChange | map.js:152-155 | a new county value resets to page 1 and re-renders |
| Viewer.MapViewer.OnSearchInput | map.js:157-160 | a new search text resets to page 1 and re-renders |
| Viewer.MapViewer.OnPrev | map.js:162-167 | on page 1 nothing changes; otherwise the page decreases by one and the view is re-rendered |
| Viewer.MapViewer.OnNext | map.js:169-175 | on the last page nothing changes; otherwise the page increases by one and the view is re-rendered |
| Viewer.MapViewer.OnPageSizeChange | map.js:177-181 | a new page size resets to page 1 and re-renders |
| Viewer.MapViewer.BeginLoad | map.js:201-212 | the reset before the fetch: no districts, no registry, no selection, no rows, and the county filter back to the bare `all` option |
| Viewer.MapViewer.Install | map.js:221-296 | the fields the continuation writes hold the loaded dataset's derivations, and the closure invariant is kept |
| Viewer.MapViewer.OnDatasetLoaded | map.js:214-300 | a failed or `null` response changes nothing; otherwise the dataset is installed and rendered, with the page clamped from the old one |

## Left out

- The Tianditu widget calls (`setViewport`, `openInfoWindow`, `getBounds().getCenter()`, `clearOverLays`, `addOverLay`). They are foreign map code. They appear only as abstract state: the shown ids, the open window with its anchor (the click point or "the polygon's centre"), and the last viewport request.
- DOM construction and querying: `innerHTML`, element creation, the `data-id` lookups and `document.title` placement in the sidebar. The list is kept as its rows and the set of marked ids.
- The mobile sidebar: `isMobile`, `matchMedia`, and the hamburger, backdrop and Escape handlers (`map.js:29`, `map.js:133-136`, `map.js:183-198`). This is page layout with no state the model tracks.
- `fetch`, the promise chains and `console` output. A response is a parameter: a failed request or an already-parsed body. The race in which a stale response lands after a newer `loadDataset` is not modelled. Each continuation is applied as one atomic step.
- JSON values beyond the shapes modelled. A record's `name` and `county` are strings and `polylines` is a list of rings. A `dataset_name` or `datasets` that is not a string or list is out of scope, as is a record without a `file`. Object-prototype keys such as `__proto__` in the county histogram are out of scope too.
- Coordinates are kept as opaque pairs of reals. Nothing is computed with them, so no floating-point behaviour is modelled.
- Polygon and information-window object identity. A registry entry is a value, and `setStyle` is a map update on that value.
- Text.Lower: lowercases ASCII letters only; JavaScript's `toLowerCase` also folds non-ASCII letters, so a non-ASCII search can match there and not in this model.
- Dataset.LoadedDistrictsSpec: holds for every county except one literally named `all`. Such a county's option has the value `all`, which `render` (`map.js:44`) treats as no county filter, so choosing it lists every record rather than the count on the option (`Dataset.AllCountyCollision`). The model keeps the source's behaviour.
- Dataset.CountyKeys: lists the keys in plain insertion order. `Object.keys` lists integer-like keys such as "2" and "10" first, in numeric order. The `.sort()` at `map.js:261` makes the two orders give the same options (`Text.SortIgnoresOrder`).
- Text.StrLe: compares by code point, as `.sort()` does by UTF-16 code unit; the two orders differ only for characters outside the Basic Multilingual Plane.
- Viewer.MapViewer.OnPageSizeChange: requires a positive size. This is the model's assumption that `parseInt` of the page-size control (`map.js:178`) yields a positive number; a `NaN` or a size of 0 is not modelled.
- `crawl_ningbo.py` and `convert_coords.py` are not part of this model. They are data-preparation scripts: network download, geometry libraries and floating-point reprojection.
