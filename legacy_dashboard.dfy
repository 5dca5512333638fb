/**
 * The older dashboard client's widget manager. Each widget type is mounted
 * at most once, under its own type id: the element for widget `clock` is a
 * `clock-widget`. The manager tracks mounted elements in a map from id to
 * element. The outcomes of its requests are inputs: the registry listing,
 * each widget's detail fetch, and whether the widget's element got defined.
 */
module LegacyDashboard {
  import opened Common

  /** The details `GET /api/widgets/{id}` answers with. */
  datatype Record = Record(name: Option<string>, position: Option<Position>)

  /** A mounted widget element, with the properties the manager sets on it. */
  datatype Element = Element(tagName: string, widgetId: string, title: Option<string>, position: Position)

  /** What loading one widget met: its detail fetch, and whether its custom element got defined in time. */
  datatype LoadOutcome = LoadOutcome(detail: Option<Record>, defined: bool)

  /** The placement of a widget whose details carry none. */
  const DefaultPosition := Position(100.0, 100.0, 300.0, 200.0)

  /** The custom-element name of widget `id`. */
  function TagName(id: string): string {
    id + "-widget"
  }

  /** The element `createWidget` builds for `id` from its details. */
  function ElementFor(id: string, data: Record): Element {
    Element(TagName(id), id, data.name, data.position.GetOr(DefaultPosition))
  }

  /** Every mounted element is filed under its own id, with that id's tag name. */
  predicate WellFormed(m: map<string, Element>) {
    forall id | id in m :: m[id].widgetId == id && m[id].tagName == TagName(id)
  }

  /** The map after one `loadWidget`: mounted when both steps succeed and the id is new. */
  function LoadStep(m: map<string, Element>, id: string, outcome: LoadOutcome): map<string, Element> {
    if outcome.detail.Some? && outcome.defined && id !in m then m[id := ElementFor(id, outcome.detail.value)] else m
  }

  /** The map after loading each listed id in turn. */
  function LoadAll(m: map<string, Element>, ids: seq<string>, outcomes: seq<LoadOutcome>): map<string, Element>
    requires |outcomes| == |ids|
  {
    if ids == [] then m
    else
      var n := |ids| - 1;
      LoadStep(LoadAll(m, ids[..n], outcomes[..n]), ids[n], outcomes[n])
  }

  /** Whether the `i`th listed widget loaded: its details arrived and its element got defined. */
  predicate Loaded(outcomes: seq<LoadOutcome>, i: int)
    requires 0 <= i < |outcomes|
  {
    outcomes[i].detail.Some? && outcomes[i].defined
  }

  /**
   * After loading a list, an id is mounted exactly when it was mounted before
   * or some listing of it loaded, and every mounted element is still filed
   * under its own id with its own tag name.
   */
  lemma {:induction false} LoadAllMounts(m: map<string, Element>, ids: seq<string>, outcomes: seq<LoadOutcome>, id: string)
    requires |outcomes| == |ids|
    ensures id in LoadAll(m, ids, outcomes) <==>
      id in m || exists i :: 0 <= i < |ids| && ids[i] == id && Loaded(outcomes, i)
    ensures WellFormed(m) ==> WellFormed(LoadAll(m, ids, outcomes))
  {
    if ids != [] {
      var n := |ids| - 1;
      LoadAllMounts(m, ids[..n], outcomes[..n], id);
      if id in LoadAll(m, ids, outcomes) && id !in m {
        if id in LoadAll(m, ids[..n], outcomes[..n]) {
          var i :| 0 <= i < n && ids[..n][i] == id && Loaded(outcomes[..n], i);
          assert ids[i] == id && Loaded(outcomes, i);
        } else {
          assert ids[n] == id && Loaded(outcomes, n);
        }
      }
      if exists i :: 0 <= i < |ids| && ids[i] == id && Loaded(outcomes, i) {
        var i :| 0 <= i < |ids| && ids[i] == id && Loaded(outcomes, i);
        if i < n {
          assert ids[..n][i] == id && Loaded(outcomes[..n], i);
        }
      }
      if WellFormed(m) {
        var before := LoadAll(m, ids[..n], outcomes[..n]);
        forall k | k in before
          ensures before[k].widgetId == k && before[k].tagName == TagName(k)
        {
          LoadAllMounts(m, ids[..n], outcomes[..n], k);
        }
      }
    }
  }

  /** The older dashboard's widget manager: the elements it has mounted, by widget id. */
  class WidgetManager {
    var widgets: map<string, Element>

    predicate Valid()
      reads this
    {
      WellFormed(widgets)
    }

    /** A new manager has mounted nothing. */
    constructor ()
      ensures Valid() && widgets == map[]
    {
      widgets := map[];
    }

    /**
     * `createWidget`: an id that is already mounted is left as it is and
     * nothing is returned; otherwise an element tagged `{id}-widget`, titled
     * with the record's name and placed at its position (or at the default
     * one), is mounted under the id and returned.
     */
    method CreateWidget(widgetId: string, data: Record) returns (el: Option<Element>)
      requires Valid()
      modifies this`widgets
      ensures Valid()
      ensures widgetId in old(widgets) ==> el.None? && widgets == old(widgets)
      ensures widgetId !in old(widgets) ==>
        && el.Some?
        && el.value.tagName == widgetId + "-widget" && el.value.widgetId == widgetId
        && el.value.title == data.name
        && (data.position.Some? ==> el.value.position == data.position.value)
        && (data.position.None? ==> el.value.position == DefaultPosition)
        && widgets == old(widgets)[widgetId := el.value]
    {
      if widgetId in widgets {
        return None;
      }
      var element := ElementFor(widgetId, data);
      widgets := widgets[widgetId := element];
      return Some(element);
    }

    /**
     * `removeWidget`: a mounted id is unmounted and one `DELETE` request for
     * it is issued (its path is returned); an id that is not mounted changes
     * nothing and issues no request.
     */
    method RemoveWidget(widgetId: string) returns (deleteRequest: Option<string>)
      requires Valid()
      modifies this`widgets
      ensures Valid()
      ensures widgetId in old(widgets) ==>
        widgets == old(widgets) - {widgetId} && deleteRequest == Some("/api/widgets/" + widgetId)
      ensures widgetId !in old(widgets) ==> widgets == old(widgets) && deleteRequest.None?
    {
      if widgetId in widgets {
        widgets := widgets - {widgetId};
        return Some("/api/widgets/" + widgetId);
      }
      return None;
    }

    /** `clearWidgets`: every element is unmounted. */
    method ClearWidgets()
      modifies this`widgets
      ensures Valid() && widgets == map[]
    {
      widgets := map[];
    }

    /**
     * `loadWidget`: true, with the widget mounted unless it already was,
     * exactly when its details arrived and its element got defined; false,
     * with nothing mounted, otherwise.
     */
    method LoadWidget(widgetId: string, outcome: LoadOutcome) returns (ok: bool)
      requires Valid()
      modifies this`widgets
      ensures Valid()
      ensures ok <==> outcome.detail.Some? && outcome.defined
      ensures widgets == LoadStep(old(widgets), widgetId, outcome)
      ensures !ok ==> widgets == old(widgets)
    {
      if outcome.detail.None? || !outcome.defined {
        return false;
      }
      var _ := CreateWidget(widgetId, outcome.detail.value);
      return true;
    }

    /**
     * `loadAllWidgets`: when the listing fails, nothing is unmounted and the
     * empty list is returned; otherwise every element is unmounted, each
     * listed widget is loaded in list order, and the listing is returned. A
     * listing without a `widgets` key counts as the empty list.
     */
    method LoadAllWidgets(listing: Option<Option<seq<string>>>, outcomes: seq<LoadOutcome>) returns (listed: seq<string>)
      requires Valid()
      requires listing.Some? ==> |outcomes| == |listing.value.GetOr([])|
      modifies this`widgets
      ensures Valid()
      ensures listing.None? ==> listed == [] && widgets == old(widgets)
      ensures listing.Some? ==> listed == listing.value.GetOr([]) && widgets == LoadAll(map[], listed, outcomes)
    {
      if listing.None? {
        return [];
      }
      listed := listing.value.GetOr([]);
      ClearWidgets();
      var i := 0;
      while i < |listed|
        invariant 0 <= i <= |listed|
        invariant Valid()
        invariant widgets == LoadAll(map[], listed[..i], outcomes[..i])
      {
        var _ := LoadWidget(listed[i], outcomes[i]);
        assert listed[..i + 1][..i] == listed[..i];
        assert outcomes[..i + 1][..i] == outcomes[..i];
        i := i + 1;
      }
      assert listed[..i] == listed;
      assert outcomes[..i] == outcomes;
    }

    /** The `widget-close` listener: remove exactly the widget its event names. */
    method OnWidgetClose(detailWidgetId: string) returns (deleteRequest: Option<string>)
      requires Valid()
      modifies this`widgets
      ensures Valid()
      ensures widgets == old(widgets) - {detailWidgetId}
      ensures deleteRequest.Some? <==> detailWidgetId in old(widgets)
    {
      deleteRequest := RemoveWidget(detailWidgetId);
    }
  }
}
