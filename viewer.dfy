/**
 * The state held in the page's `window.onload` closure and the handlers
 * that change it: `render`, `updateMapPolygons`, `selectDistrict`, the
 * filter and pager handlers, and `loadDataset` (its synchronous reset and
 * the continuation that runs when the dataset file arrives).
 *
 * The map widget and the DOM are replaced by the state they hold: the ids
 * whose polygons are on the map, the open information window, the last
 * viewport request, the rows of the list, the rows marked `selected`, and
 * the pager and county-filter controls.
 */
module Viewer {
  import opened Wrappers
  import opened Text
  import opened Districts
  import opened Filtering
  import opened Paging
  import opened Dataset

  /** Where an information window is anchored: the click, or the polygon's bounds centre. */
  datatype Anchor = ClickPoint(at: Point) | BoundsCenter

  datatype InfoWindowState = Closed | OpenAt(id: nat, anchor: Anchor)

  /** The last viewport request: the initial centre and zoom, or a point set to fit. */
  datatype Viewport = CenterZoom(center: Point, zoom: nat) | FitPoints(points: seq<Point>)

  /** A row of the district list: its `data-id` and its text. */
  datatype ListItem = ListItem(id: nat, text: string)

  function ListItems(page: seq<District>): seq<ListItem>
  {
    seq(|page|, i requires 0 <= i < |page| => ListItem(page[i].id, RowText(page[i])))
  }

  /** The ids `querySelector("li[data-id=…]")` can find. */
  function ListIds(items: seq<ListItem>): set<nat>
  {
    set it | it in items :: it.id
  }

  lemma ListItemsAppend(page: seq<District>, area: District)
    ensures ListItems(page + [area]) == ListItems(page) + [ListItem(area.id, RowText(area))]
  {
  }

  lemma HighlightAppend(items: seq<ListItem>, item: ListItem, selected: Option<nat>)
    ensures Highlight(items + [item], selected)
            == Highlight(items, selected) + (if selected == Some(item.id) then {item.id} else {})
  {
    var h := Highlight(items + [item], selected);
    var e := Highlight(items, selected) + (if selected == Some(item.id) then {item.id} else {});
    forall x ensures x in h <==> x in e {
      if x in h {
        var it :| it in items + [item] && selected == Some(it.id) && it.id == x;
        if it != item {
          assert it in items;
        }
      }
      if x in e && x !in Highlight(items, selected) {
        assert item in items + [item];
      }
      if x in Highlight(items, selected) {
        var it :| it in items && selected == Some(it.id) && it.id == x;
        assert it in items + [item];
      }
    }
  }

  /** The ids of the rows carrying the `selected` class: only ever the selected id. */
  function Highlight(items: seq<ListItem>, selected: Option<nat>): set<nat>
  {
    set it | it in items && selected == Some(it.id) :: it.id
  }

  /** At most the selected district is marked, and it is marked exactly when the list shows its row. */
  lemma HighlightSpec(items: seq<ListItem>, selected: Option<nat>)
    ensures Highlight(items, selected) ==
      if selected.Some? && selected.value in ListIds(items) then {selected.value} else {}
  {
    var h := Highlight(items, selected);
    if selected.Some? && selected.value in ListIds(items) {
      var it :| it in items && it.id == selected.value;
      assert selected.value in h;
    }
  }

  /** The ids `updateMapPolygons` adds to the map, in list order. */
  function ShownOverlays(ds: seq<District>, polygons: map<nat, Polygon>): seq<nat>
  {
    if ds == [] then []
    else ShownOverlays(ds[..|ds| - 1], polygons)
         + (if ds[|ds| - 1].id in polygons then [ds[|ds| - 1].id] else [])
  }

  /** The map shows exactly the filtered districts that have a polygon. */
  lemma {:induction false} ShownOverlaysExact(ds: seq<District>, polygons: map<nat, Polygon>)
    ensures forall x :: x in ShownOverlays(ds, polygons) <==> x in polygons && exists d :: d in ds && d.id == x
  {
    if ds != [] {
      var prev := ds[..|ds| - 1];
      ShownOverlaysExact(prev, polygons);
      assert ds == prev + [ds[|ds| - 1]];
    }
  }

  /** The next `selectedDistrictId`: clicking the selected district clears the selection. */
  function Toggle(current: Option<nat>, clicked: nat): (next: Option<nat>)
    ensures next.None? <==> current == Some(clicked)
    ensures next.Some? ==> next.value == clicked
  {
    if current == Some(clicked) then None else Some(clicked)
  }

  /**
   * The `forEach` of `render` that builds the rows of a page, marking the
   * row of the selected district.
   */
  method RenderRows(page: seq<District>, selected: Option<nat>) returns (items: seq<ListItem>, marked: set<nat>)
    ensures items == ListItems(page)
    ensures marked == Highlight(items, selected)
  {
    items := [];
    marked := {};
    for i := 0 to |page|
      invariant items == ListItems(page[..i])
      invariant marked == Highlight(items, selected)
    {
      var area := page[i];
      assert page[..i + 1] == page[..i] + [area];
      ListItemsAppend(page[..i], area);
      HighlightAppend(items, ListItem(area.id, RowText(area)), selected);
      items := items + [ListItem(area.id, RowText(area))];
      if Some(area.id) == selected {
        marked := marked + {area.id};
      }
    }
    assert page[..|page|] == page;
  }

  /** Only the selected district's polygon may carry the selected style. */
  ghost predicate StylesAgree(polygons: map<nat, Polygon>, selected: Option<nat>)
  {
    forall k :: k in polygons && polygons[k].style == SelectedStyle ==> selected == Some(k)
  }

  lemma AtMostOneSelectedStyle(polygons: map<nat, Polygon>, selected: Option<nat>, a: nat, b: nat)
    requires StylesAgree(polygons, selected)
    requires a in polygons && polygons[a].style == SelectedStyle
    requires b in polygons && polygons[b].style == SelectedStyle
    ensures a == b
  {
  }

  /** `polygons.get(id)?.setStyle(style)`: restyle the polygon registered under `id`, if any. */
  function Restyle(polygons: map<nat, Polygon>, id: nat, style: Style): map<nat, Polygon>
  {
    if id in polygons then polygons[id := polygons[id].(style := style)] else polygons
  }

  lemma RestyleSpec(polygons: map<nat, Polygon>, id: nat, style: Style)
    ensures var r := Restyle(polygons, id, style);
      && r.Keys == polygons.Keys
      && (forall k :: k in r ==> r[k].ring == polygons[k].ring)
      && (forall k :: k in r ==> r[k].style == (if k == id then style else polygons[k].style))
  {
  }

  /**
   * The registry after `selectDistrict(id)`: a click on the selected
   * district reverts it; any other click reverts the previous selection and
   * gives `id` the selected style.
   */
  function Reselect(polygons: map<nat, Polygon>, selected: Option<nat>, id: nat): map<nat, Polygon>
  {
    if selected == Some(id) then Restyle(polygons, id, DefaultStyle)
    else
      var reset := if selected.Some? then Restyle(polygons, selected.value, DefaultStyle) else polygons;
      Restyle(reset, id, SelectedStyle)
  }

  /**
   * Selection changes styles and nothing else: the new selection is drawn
   * selected, the clicked and the previous selection are drawn plain, every
   * other polygon keeps its style, and no polygon gains or loses its ring.
   */
  lemma ReselectStyles(polygons: map<nat, Polygon>, selected: Option<nat>, id: nat)
    ensures var r := Reselect(polygons, selected, id);
      && r.Keys == polygons.Keys
      && (forall k :: k in r ==> r[k].ring == polygons[k].ring)
      && (forall k :: k in r ==>
            (r[k].style == if Some(k) == Toggle(selected, id) then SelectedStyle
                           else if k == id || Some(k) == selected then DefaultStyle
                           else polygons[k].style))
  {
    if selected == Some(id) {
      RestyleSpec(polygons, id, DefaultStyle);
    } else {
      var reset := if selected.Some? then Restyle(polygons, selected.value, DefaultStyle) else polygons;
      if selected.Some? {
        RestyleSpec(polygons, selected.value, DefaultStyle);
      }
      RestyleSpec(reset, id, SelectedStyle);
    }
  }

  /** After a selection, only the newly selected polygon can be drawn selected. */
  lemma ReselectKeepsStylesAgree(polygons: map<nat, Polygon>, selected: Option<nat>, id: nat)
    requires StylesAgree(polygons, selected)
    ensures StylesAgree(Reselect(polygons, selected, id), Toggle(selected, id))
  {
    ReselectStyles(polygons, selected, id);
  }

  function AnchorOf(click: Option<Point>): Anchor
  {
    if click.Some? then ClickPoint(click.value) else BoundsCenter
  }

  /**
   * The filtered list, the overlays on the map, the clamped page, the rows
   * listed and the pager controls, as `render` derives them from the
   * loaded districts, the two filter inputs, the registry and the page size.
   */
  ghost predicate RenderedView(all: seq<District>, countyValue: string, searchValue: string,
                               polygons: map<nat, Polygon>, size: int,
                               filtered: seq<District>, shown: seq<nat>, page: int,
                               items: seq<ListItem>, pager: Pager)
  {
    && size > 0 && page >= 1
    && filtered == Filtered(all, countyValue, searchValue)
    && shown == ShownOverlays(filtered, polygons)
    && var total := TotalPages(|filtered|, size);
       && page == ClampPage(page, total)
       && items == ListItems(PageWindow(filtered, page, size))
       && pager == PagerOf(page, total)
  }

  /** The loop of `updateMapPolygons`: add each filtered district's polygon, when it has one, in list order. */
  method ShowOverlays(filtered: seq<District>, polygons: map<nat, Polygon>) returns (shown: seq<nat>)
    ensures shown == ShownOverlays(filtered, polygons)
  {
    shown := [];
    for i := 0 to |filtered|
      invariant shown == ShownOverlays(filtered[..i], polygons)
    {
      var area := filtered[i];
      assert filtered[..i + 1][..i] == filtered[..i];
      if area.id in polygons {
        shown := shown + [area.id];
      }
    }
    assert filtered[..|filtered|] == filtered;
  }

  /**
   * The computation of `render` on the closure's values: filter, redraw the
   * overlays, clamp the page, list its rows and build the pager.
   */
  method RenderView(all: seq<District>, countyValue: string, searchValue: string,
                    polygons: map<nat, Polygon>, size: int, page: int, selected: Option<nat>)
    returns (filtered: seq<District>, shown: seq<nat>, p: int, items: seq<ListItem>, marked: set<nat>, pager: Pager)
    requires size > 0
    ensures RenderedView(all, countyValue, searchValue, polygons, size, filtered, shown, p, items, pager)
    ensures p == ClampPage(page, TotalPages(|filtered|, size))
    ensures marked == Highlight(items, selected)
  {
    filtered := Filtered(all, countyValue, searchValue);
    shown := ShowOverlays(filtered, polygons);
    var totalPages := TotalPages(|filtered|, size);
    p := ClampPage(page, totalPages);
    var paginated := PageWindow(filtered, p, size);
    items, marked := RenderRows(paginated, selected);
    pager := PagerOf(p, totalPages);
  }

  /**
   * The body of `selectDistrict` on the closure's values: the registry, the
   * information windows, the listed rows and the rows marked `selected`, the
   * selection and the last viewport request. When the selection was
   * consistent with the styles and the marks before the click, it still is.
   */
  method SelectOn(polygons0: map<nat, Polygon>, infoWindows: map<nat, string>, items: seq<ListItem>,
                  highlighted0: set<nat>, selected0: Option<nat>, viewport0: Viewport,
                  districtId: nat, click: Option<Point>)
    returns (polygons: map<nat, Polygon>, highlighted: set<nat>, selected: Option<nat>,
             info: InfoWindowState, viewport: Viewport)
    requires StylesAgree(polygons0, selected0)
    requires highlighted0 == Highlight(items, selected0)
    ensures polygons.Keys == polygons0.Keys && StylesAgree(polygons, selected)
    ensures highlighted == Highlight(items, selected)
    ensures selected == Toggle(selected0, districtId)
    ensures polygons == Reselect(polygons0, selected0, districtId)
    ensures info ==
      if selected.Some? && districtId in polygons && districtId in infoWindows
      then OpenAt(districtId, AnchorOf(click)) else Closed
    ensures viewport ==
      if selected.Some? && districtId in polygons then FitPoints(polygons[districtId].ring)
      else viewport0
  {
    ReselectKeepsStylesAgree(polygons0, selected0, districtId);
    ReselectStyles(polygons0, selected0, districtId);
    HighlightSpec(items, selected0);
    HighlightSpec(items, Toggle(selected0, districtId));
    polygons, highlighted, selected, viewport := polygons0, highlighted0, selected0, viewport0;
    info := Closed;
    var rows := ListIds(items);

    if Some(districtId) == selected {
      polygons := Restyle(polygons, districtId, DefaultStyle);
      if districtId in rows {
        highlighted := highlighted - {districtId};
      }
      selected := None;
      return;
    }

    if selected.Some? {
      var previous := selected.value;
      polygons := Restyle(polygons, previous, DefaultStyle);
      if previous in rows {
        highlighted := highlighted - {previous};
      }
    }

    selected := Some(districtId);

    polygons := Restyle(polygons, districtId, SelectedStyle);
    if districtId in polygons {
      viewport := FitPoints(polygons[districtId].ring);
      if districtId in infoWindows {
        info := OpenAt(districtId, AnchorOf(click));
      }
    }

    if districtId in rows {
      highlighted := highlighted + {districtId};
    }
  }

  /**
   * The `forEach` of the `loadDataset` continuation: number each record by
   * its index and, when its first ring has points, register a default-styled
   * polygon and an information window under that number.
   */
  method RegisterFeatures(data: seq<Feature>)
    returns (numbered: seq<District>, polygons: map<nat, Polygon>, infoWindows: map<nat, string>)
    ensures numbered == WithIds(data)
    ensures polygons == PolygonRegistry(data)
    ensures infoWindows == InfoRegistry(data)
    ensures polygons.Keys == infoWindows.Keys && StylesAgree(polygons, None)
  {
    polygons := map[];
    infoWindows := map[];
    numbered := [];
    for i := 0 to |data|
      invariant numbered == WithIds(data[..i])
      invariant polygons == PolygonRegistry(data[..i])
      invariant infoWindows == InfoRegistry(data[..i])
    {
      var area := data[i];
      assert data[..i + 1] == data[..i] + [area];
      WithIdsAppend(data[..i], area);
      PolygonRegistryAppend(data[..i], area);
      InfoRegistryAppend(data[..i], area);
      numbered := numbered + [District(i, area.name, area.county, area.polylines)];
      if HasRing(area.polylines) {
        polygons := polygons[i := Polygon(area.polylines[0], DefaultStyle)];
        infoWindows := infoWindows[i := InfoContent(area.name, area.county)];
      }
    }
    assert data[..|data|] == data;
    RegistrySpec(data);
  }

  /** One more record is numbered by its index. */
  lemma WithIdsAppend(fs: seq<Feature>, f: Feature)
    ensures WithIds(fs + [f]) == WithIds(fs) + [District(|fs|, f.name, f.county, f.polylines)]
  {
    var gs := fs + [f];
    assert forall k :: 0 <= k < |fs| ==> gs[k] == fs[k];
    assert gs[|fs|] == f;
  }

  /** One more record with a usable ring adds a polygon under its index; without one the registry is unchanged. */
  lemma PolygonRegistryAppend(fs: seq<Feature>, f: Feature)
    ensures PolygonRegistry(fs + [f]) ==
      if HasRing(f.polylines) then PolygonRegistry(fs)[|fs| := Polygon(f.polylines[0], DefaultStyle)]
      else PolygonRegistry(fs)
  {
    var gs := fs + [f];
    assert forall k :: 0 <= k < |fs| ==> gs[k] == fs[k];
    assert gs[|fs|] == f;
  }

  /** The information windows grow in step with the polygons. */
  lemma InfoRegistryAppend(fs: seq<Feature>, f: Feature)
    ensures InfoRegistry(fs + [f]) ==
      if HasRing(f.polylines) then InfoRegistry(fs)[|fs| := InfoContent(f.name, f.county)]
      else InfoRegistry(fs)
  {
    var gs := fs + [f];
    assert forall k :: 0 <= k < |fs| ==> gs[k] == fs[k];
    assert gs[|fs|] == f;
  }

  /** The state a loaded file leaves behind, given the viewport before it. */
  ghost predicate InstalledView(loaded: Loaded, before: Viewport, title: string, all: seq<District>,
                                options: seq<FilterOption>, polygons: map<nat, Polygon>,
                                infoWindows: map<nat, string>, viewport: Viewport)
  {
    var data := loaded.features;
    && title == loaded.title
    && all == WithIds(data)
    && options == CountyOptions(CountiesOf(data))
    && polygons == PolygonRegistry(data)
    && infoWindows == InfoRegistry(data)
    && viewport == (if FirstRingPoints(data) != [] then FitPoints(FirstRingPoints(data)) else before)
  }

  /**
   * The continuation of `loadDataset` on values. Every registered polygon
   * starts in the default style, so no selection is contradicted by it.
   */
  method InstallOn(loaded: Loaded, before: Viewport, selected: Option<nat>)
    returns (title: string, all: seq<District>, options: seq<FilterOption>, polygons: map<nat, Polygon>,
             infoWindows: map<nat, string>, viewport: Viewport)
    ensures InstalledView(loaded, before, title, all, options, polygons, infoWindows, viewport)
    ensures polygons.Keys == infoWindows.Keys && StylesAgree(polygons, selected)
  {
    var data := loaded.features;
    title := loaded.title;
    options := CountyOptions(CountiesOf(data));
    all, polygons, infoWindows := RegisterFeatures(data);
    viewport := before;
    var points := FirstRingPoints(data);
    if |points| > 0 {
      viewport := FitPoints(points);
    }
  }

  /**
   * What the closure keeps true between events: a positive page size and a
   * page from 1 up, a polygon and an information window for the same ids,
   * the selected style on the selected polygon only, and the `selected`
   * class on exactly the listed row of the selected district. It is stated
   * on values rather than on the object so that `MapViewer.Valid` only has
   * to name its fields: proofs about the object then reason about one call
   * of this predicate instead of about every field it reads.
   */
  ghost predicate Consistent(size: int, page: int, polygons: map<nat, Polygon>, infoWindows: map<nat, string>,
                             selected: Option<nat>, items: seq<ListItem>, highlighted: set<nat>)
  {
    && size > 0 && page >= 1
    && polygons.Keys == infoWindows.Keys
    && StylesAgree(polygons, selected)
    && highlighted == Highlight(items, selected)
  }

  /** The initial view: `centerAndZoom(new T.LngLat(121.5439, 29.8683), 12)`. */
  const InitialView: Viewport := CenterZoom(Point(121.5439, 29.8683), 12)

  const DefaultPageSize: int := 10

  class MapViewer {
    // closure state
    var allDistricts: seq<District>
    var filteredDistricts: seq<District>
    var polygons: map<nat, Polygon>
    var infoWindows: map<nat, string>
    var currentPage: int
    var itemsPerPage: int
    var selectedDistrictId: Option<nat>

    // input controls
    var countyValue: string
    var searchValue: string

    // output controls
    var countyOptions: seq<FilterOption>
    var title: string
    var listItems: seq<ListItem>
    var highlighted: set<nat>
    var pager: Pager

    // map widget
    var shownOverlays: seq<nat>
    var infoWindow: InfoWindowState
    var viewport: Viewport

    ghost predicate Valid()
      reads this
    {
      Consistent(itemsPerPage, currentPage, polygons, infoWindows, selectedDistrictId, listItems, highlighted)
    }

    /** What `render` leaves behind: list, overlays and pager agree with the filters and the page. */
    ghost predicate Rendered()
      reads this
    {
      && Valid()
      && RenderedView(allDistricts, countyValue, searchValue, polygons, itemsPerPage,
                      filteredDistricts, shownOverlays, currentPage, listItems, pager)
    }

    /**
     * The state before the first dataset arrives. `render` is not called
     * until then, so the county filter, the list and the pager show the
     * page's own markup, which is not part of this model. It is assumed to
     * start the filter at "all" and to show the pager as `render` would for
     * an empty list: "1/1" with both buttons disabled.
     */
    constructor ()
      ensures Rendered()
      ensures allDistricts == [] && polygons == map[] && infoWindows == map[]
      ensures currentPage == 1 && itemsPerPage == DefaultPageSize && selectedDistrictId == None
      ensures countyValue == AllCounties && searchValue == "" && countyOptions == ResetOptions
      ensures infoWindow == Closed && viewport == InitialView
    {
      allDistricts := [];
      filteredDistricts := [];
      polygons := map[];
      infoWindows := map[];
      currentPage := 1;
      itemsPerPage := DefaultPageSize;
      selectedDistrictId := None;
      countyValue := AllCounties;
      searchValue := "";
      countyOptions := ResetOptions;
      title := "";
      listItems := [];
      highlighted := {};
      pager := PagerOf(1, 0);
      shownOverlays := [];
      infoWindow := Closed;
      viewport := InitialView;
    }

    /** `render`: recompute the view from the filters, the registry and the page, and show it. */
    method Render()
      requires Valid()
      modifies this`filteredDistricts, this`shownOverlays, this`currentPage,
               this`listItems, this`highlighted, this`pager
      ensures Rendered()
      ensures currentPage == ClampPage(old(currentPage), TotalPages(|filteredDistricts|, itemsPerPage))
    {
      var filtered, shown, page, items, marked, pg :=
        RenderView(allDistricts, countyValue, searchValue, polygons, itemsPerPage, currentPage, selectedDistrictId);
      filteredDistricts := filtered;
      shownOverlays := shown;
      currentPage := page;
      listItems := items;
      highlighted := marked;
      pager := pg;
    }

    /**
     * `selectDistrict`: close the information window; clicking the selected
     * district reverts it and clears the selection; otherwise revert the
     * previous selection, record the new id and, when it has a polygon,
     * style it, fit the view to its ring and open its information window.
     */
    method SelectDistrict(districtId: nat, click: Option<Point>)
      requires Valid()
      modifies this`selectedDistrictId, this`polygons, this`highlighted, this`infoWindow, this`viewport
      ensures Valid()
      ensures selectedDistrictId == Toggle(old(selectedDistrictId), districtId)
      ensures polygons == Reselect(old(polygons), old(selectedDistrictId), districtId)
      ensures infoWindow ==
        if selectedDistrictId.Some? && districtId in polygons then OpenAt(districtId, AnchorOf(click)) else Closed
      ensures viewport ==
        if selectedDistrictId.Some? && districtId in polygons then FitPoints(polygons[districtId].ring)
        else old(viewport)
    {
      polygons, highlighted, selectedDistrictId, infoWindow, viewport :=
        SelectOn(polygons, infoWindows, listItems, highlighted, selectedDistrictId, viewport, districtId, click);
    }

    /** The county filter's `change` handler. */
    method OnCountyChange(value: string)
      requires Valid()
      modifies this`countyValue, this`filteredDistricts, this`shownOverlays, this`currentPage,
               this`listItems, this`highlighted, this`pager
      ensures Rendered() && countyValue == value && currentPage == 1
    {
      countyValue := value;
      currentPage := 1;
      Render();
    }

    /** The search box's `input` handler. */
    method OnSearchInput(text: string)
      requires Valid()
      modifies this`searchValue, this`filteredDistricts, this`shownOverlays, this`currentPage,
               this`listItems, this`highlighted, this`pager
      ensures Rendered() && searchValue == text && currentPage == 1
    {
      searchValue := text;
      currentPage := 1;
      Render();
    }

    /** The page-size selector's `change` handler; `parseInt` is taken to give a positive size. */
    method OnPageSizeChange(size: int)
      requires Valid() && size > 0
      modifies this`itemsPerPage, this`filteredDistricts, this`shownOverlays, this`currentPage,
               this`listItems, this`highlighted, this`pager
      ensures Rendered() && itemsPerPage == size && currentPage == 1
    {
      itemsPerPage := size;
      currentPage := 1;
      Render();
    }

    /** The prev button: step back unless on page 1. */
    method OnPrev()
      requires Valid()
      modifies this`filteredDistricts, this`shownOverlays, this`currentPage,
               this`listItems, this`highlighted, this`pager
      ensures Valid()
      ensures !CanGoPrev(old(currentPage)) ==> unchanged(this)
      ensures CanGoPrev(old(currentPage)) ==>
        Rendered() && currentPage == ClampPage(old(currentPage) - 1, TotalPages(|filteredDistricts|, itemsPerPage))
      ensures old(Rendered()) ==> currentPage == if CanGoPrev(old(currentPage)) then old(currentPage) - 1 else old(currentPage)
    {
      if CanGoPrev(currentPage) {
        currentPage := currentPage - 1;
        Render();
      }
    }

    /** The next button: step forward while pages remain. */
    method OnNext()
      requires Valid()
      modifies this`filteredDistricts, this`shownOverlays, this`currentPage,
               this`listItems, this`highlighted, this`pager
      ensures Valid()
      ensures var total := TotalPages(|old(filteredDistricts)|, itemsPerPage);
        && (!CanGoNext(old(currentPage), total) ==> unchanged(this))
        && (CanGoNext(old(currentPage), total) ==>
              Rendered() && currentPage == ClampPage(old(currentPage) + 1, TotalPages(|filteredDistricts|, itemsPerPage)))
      ensures old(Rendered()) ==>
        currentPage == if CanGoNext(old(currentPage), TotalPages(|old(filteredDistricts)|, itemsPerPage))
                       then old(currentPage) + 1 else old(currentPage)
    {
      var totalPages := TotalPages(|filteredDistricts|, itemsPerPage);
      if CanGoNext(currentPage, totalPages) {
        currentPage := currentPage + 1;
        Render();
      }
    }

    /**
     * The synchronous part of `loadDataset`: forget the loaded data, the
     * registry, the selection and the list, and cut the county filter back
     * to its "all" option (which the select then shows).
     */
    method BeginLoad()
      requires Valid()
      modifies this`allDistricts, this`filteredDistricts, this`polygons, this`infoWindows,
               this`selectedDistrictId, this`listItems, this`highlighted, this`countyOptions, this`countyValue
      ensures Valid()
      ensures allDistricts == [] && filteredDistricts == [] && polygons == map[] && infoWindows == map[]
      ensures selectedDistrictId == None && listItems == [] && highlighted == {}
      ensures countyOptions == ResetOptions && countyValue == AllCounties
    {
      allDistricts := [];
      filteredDistricts := [];
      polygons := map[];
      infoWindows := map[];
      selectedDistrictId := None;
      listItems := [];
      highlighted := {};
      countyOptions := ResetOptions;
      countyValue := AllCounties;
      HighlightSpec([], None);
    }

    /** The state `Install` leaves for a loaded dataset; `before` is the viewport it started from. */
    ghost predicate Shows(loaded: Loaded, before: Viewport)
      reads this`title, this`allDistricts, this`countyOptions, this`polygons, this`infoWindows, this`viewport
    {
      InstalledView(loaded, before, title, allDistricts, countyOptions, polygons, infoWindows, viewport)
    }

    /**
     * The continuation of `loadDataset` up to its closing `render()`: set the
     * title, rebuild the county options, number the records, register a
     * polygon and an information window for each record with a usable first
     * ring, and fit the view to all first rings.
     */
    method Install(loaded: Loaded)
      requires Valid()
      modifies this`title, this`countyOptions, this`allDistricts, this`polygons, this`infoWindows, this`viewport
      ensures Valid()
      ensures Shows(loaded, old(viewport))
    {
      title, allDistricts, countyOptions, polygons, infoWindows, viewport :=
        InstallOn(loaded, viewport, selectedDistrictId);
    }

    /** The continuation of `loadDataset` once the file's fetch settles: nothing changes on failure. */
    method OnDatasetLoaded(response: Fetch)
      requires Valid()
      modifies this`title, this`countyOptions, this`allDistricts, this`polygons, this`infoWindows, this`viewport,
               this`filteredDistricts, this`shownOverlays, this`currentPage, this`listItems, this`highlighted, this`pager
      ensures Valid()
      ensures Normalize(response).None? ==> unchanged(this)
      ensures Normalize(response).Some? ==>
        && Shows(Normalize(response).value, old(viewport))
        && Rendered()
        && currentPage == ClampPage(old(currentPage), TotalPages(|filteredDistricts|, itemsPerPage))
    {
      var loaded := Normalize(response);
      if loaded.None? {
        return;
      }
      Install(loaded.value);
      Render();
    }
  }

  /** Selecting A then B leaves only B selected and marked; selecting B again clears everything. */
  method SelectionScenario(v: MapViewer, a: nat, b: nat)
    requires v.Valid() && v.selectedDistrictId == None && a != b
    modifies v
  {
    v.SelectDistrict(a, None);
    assert v.selectedDistrictId == Some(a);
    v.SelectDistrict(b, None);
    assert v.selectedDistrictId == Some(b) && v.highlighted <= {b};
    assert a in v.polygons ==> v.polygons[a].style == DefaultStyle;
    v.SelectDistrict(b, None);
    assert v.selectedDistrictId == None && v.highlighted == {} && v.infoWindow == Closed;
  }
}
