/**
 * The dashboard client's widget manager. It keeps three things:
 *  - the widget elements it has mounted, by instance id;
 *  - the set of widget types whose definitions it has asked for;
 *  - its copy of the server's list of widget instances (the registry).
 * Network answers, random draws and the clock reach the model as parameters.
 */
module Dashboard {
  import opened Common
  import opened Strings
  import Seqs

  /** One widget instance record of the registry: an instance of a type, with an optional title and placement. */
  datatype Instance = Instance(id: string, widgetType: string, name: Option<string>, position: Option<Position>)

  /** A mounted widget element, with the properties the manager sets on it. */
  datatype Element = Element(tagName: string, widgetId: string, widgetType: string, title: Option<string>, position: Position)

  /** The two `Math.random()` draws behind a random placement. */
  datatype Offset = Offset(rx: UnitReal, ry: UnitReal)

  /**
   * The client's copy of the registry: the whole object `GET /api/widgets`
   * answered with, that is the registered types and the instance records.
   * Either list may be missing from what was fetched.
   */
  datatype ClientRegistry = ClientRegistry(widgetTypes: Option<seq<TypeEntry>>, widgets: Option<seq<Instance>>)

  /** What `addWidgetInstance` reports: success with the new record, or failure. */
  datatype AddOutcome = Added(widget: Instance) | AddFailed

  /** The custom-element name of widget type `t`. */
  function TagName(t: string): string {
    t + "-widget"
  }

  /** The element `createWidgetInstance` builds for a record, placed randomly when the record has no position. */
  function Mount(inst: Instance, off: Offset): Element {
    Element(TagName(inst.widgetType), inst.id, inst.widgetType, inst.name,
            inst.position.GetOr(RandomPlacement(off.rx, off.ry)))
  }

  /** Every mounted element is filed under its own instance id and carries its type's tag name. */
  predicate WellFormed(m: map<string, Element>) {
    forall id | id in m :: m[id].widgetId == id && m[id].tagName == TagName(m[id].widgetType)
  }

  /** Every mounted element is of a type in `available`. */
  predicate TypesAvailable(m: map<string, Element>, available: set<string>) {
    forall id | id in m :: m[id].widgetType in available
  }

  /** The mounted elements after one `createWidgetInstance`. */
  function MountStep(m: map<string, Element>, inst: Instance, off: Offset, available: set<string>): map<string, Element> {
    if inst.id in m || inst.widgetType !in available then m else m[inst.id := Mount(inst, off)]
  }

  /** The mounted elements after creating an instance for each record in turn. */
  function MountAll(m: map<string, Element>, ws: seq<Instance>, offs: seq<Offset>, available: set<string>): map<string, Element>
    requires |offs| == |ws|
  {
    if ws == [] then m
    else
      var n := |ws| - 1;
      MountStep(MountAll(m, ws[..n], offs[..n], available), ws[n], offs[n], available)
  }

  /** The mounted elements after each record that was fetched (`Some`) is created in turn. */
  function RemountAll(m: map<string, Element>, fetched: seq<Option<Instance>>, offs: seq<Offset>, available: set<string>): map<string, Element>
    requires |offs| == |fetched|
  {
    if fetched == [] then m
    else
      var n := |fetched| - 1;
      var before := RemountAll(m, fetched[..n], offs[..n], available);
      if fetched[n].Some? then MountStep(before, fetched[n].value, offs[n], available) else before
  }

  /**
   * One `createWidgetInstance` mounts exactly the record's id when that id is
   * new and its type available, and keeps the map well formed and its types
   * available.
   */
  lemma MountStepFacts(m: map<string, Element>, inst: Instance, off: Offset, available: set<string>, id: string)
    ensures id in MountStep(m, inst, off, available) <==> id in m || (id == inst.id && inst.widgetType in available)
    ensures WellFormed(m) ==> WellFormed(MountStep(m, inst, off, available))
    ensures TypesAvailable(m, available) ==> TypesAvailable(MountStep(m, inst, off, available), available)
  {
  }

  /**
   * Mounting a list mounts an id exactly when it was mounted already or some
   * record with that id has an available type; the map stays well formed and
   * only available types get mounted.
   */
  lemma {:induction false} MountAllMounts(m: map<string, Element>, ws: seq<Instance>, offs: seq<Offset>, available: set<string>, id: string)
    requires |offs| == |ws|
    ensures id in MountAll(m, ws, offs, available) <==>
      id in m || exists i :: 0 <= i < |ws| && ws[i].id == id && ws[i].widgetType in available
    ensures WellFormed(m) ==> WellFormed(MountAll(m, ws, offs, available))
    ensures TypesAvailable(m, available) ==> TypesAvailable(MountAll(m, ws, offs, available), available)
  {
    if ws != [] {
      var n := |ws| - 1;
      var before := MountAll(m, ws[..n], offs[..n], available);
      MountAllMounts(m, ws[..n], offs[..n], available, id);
      MountStepFacts(before, ws[n], offs[n], available, id);
      if id in MountAll(m, ws, offs, available) && id !in m {
        if id in before {
          var i :| 0 <= i < n && ws[..n][i].id == id && ws[..n][i].widgetType in available;
          assert ws[i].id == id && ws[i].widgetType in available;
        } else {
          assert ws[n].id == id && ws[n].widgetType in available;
        }
      }
      if exists i :: 0 <= i < |ws| && ws[i].id == id && ws[i].widgetType in available {
        var i :| 0 <= i < |ws| && ws[i].id == id && ws[i].widgetType in available;
        if i < n {
          assert ws[..n][i].id == id && ws[..n][i].widgetType in available;
        }
      }
    }
  }

  /**
   * Among records sharing an id, the first one whose type is available is the
   * one that gets mounted: later duplicates are ignored.
   */
  lemma {:induction false} MountAllFirst(m: map<string, Element>, ws: seq<Instance>, offs: seq<Offset>, available: set<string>, k: nat)
    requires |offs| == |ws| && k < |ws|
    requires ws[k].id !in m && ws[k].widgetType in available
    requires forall j :: 0 <= j < k && ws[j].id == ws[k].id ==> ws[j].widgetType !in available
    ensures ws[k].id in MountAll(m, ws, offs, available)
    ensures MountAll(m, ws, offs, available)[ws[k].id] == Mount(ws[k], offs[k])
  {
    var n := |ws| - 1;
    var before := MountAll(m, ws[..n], offs[..n], available);
    if k == n {
      MountAllMounts(m, ws[..n], offs[..n], available, ws[k].id);
      forall i | 0 <= i < n
        ensures !(ws[..n][i].id == ws[k].id && ws[..n][i].widgetType in available)
      {
        assert ws[..n][i] == ws[i];
      }
    } else {
      forall j | 0 <= j < k && ws[..n][j].id == ws[..n][k].id
        ensures ws[..n][j].widgetType !in available
      {
        assert ws[..n][j] == ws[j];
      }
      MountAllFirst(m, ws[..n], offs[..n], available, k);
    }
  }

  /** Remounting fetched records mounts an id exactly when it was mounted or a fetched record with an available type has it. */
  lemma {:induction false} RemountAllMounts(m: map<string, Element>, fetched: seq<Option<Instance>>, offs: seq<Offset>, available: set<string>, id: string)
    requires |offs| == |fetched|
    ensures id in RemountAll(m, fetched, offs, available) <==>
      id in m || exists i :: 0 <= i < |fetched| && fetched[i].Some? && fetched[i].value.id == id && fetched[i].value.widgetType in available
    ensures WellFormed(m) ==> WellFormed(RemountAll(m, fetched, offs, available))
  {
    if fetched != [] {
      var n := |fetched| - 1;
      var before := RemountAll(m, fetched[..n], offs[..n], available);
      RemountAllMounts(m, fetched[..n], offs[..n], available, id);
      if fetched[n].Some? {
        MountStepFacts(before, fetched[n].value, offs[n], available, id);
      }
      if id in RemountAll(m, fetched, offs, available) && id !in m {
        if id in before {
          var i :| 0 <= i < n && fetched[..n][i].Some? && fetched[..n][i].value.id == id && fetched[..n][i].value.widgetType in available;
          assert fetched[i] == fetched[..n][i];
        } else {
          assert fetched[n].Some? && fetched[n].value.id == id && fetched[n].value.widgetType in available;
        }
      }
      if exists i :: 0 <= i < |fetched| && fetched[i].Some? && fetched[i].value.id == id && fetched[i].value.widgetType in available {
        var i :| 0 <= i < |fetched| && fetched[i].Some? && fetched[i].value.id == id && fetched[i].value.widgetType in available;
        if i < n {
          assert fetched[..n][i] == fetched[i];
        }
      }
    }
  }

  /** The test `removeWidgetInstance` filters the registry with: keep records with another id. */
  function OtherId(id: string): Instance -> bool {
    (w: Instance) => w.id != id
  }

  /** The registry without any record of instance `id`, the others in their order. */
  function WithoutId(ws: seq<Instance>, id: string): (r: seq<Instance>)
    ensures |r| <= |ws|
  {
    Seqs.Filter(ws, OtherId(id))
  }

  /**
   * Filtering out an id drops exactly the records with that id, keeps the
   * others in order, and changes nothing when no record has it.
   */
  lemma WithoutIdFacts(ws: seq<Instance>, more: seq<Instance>, id: string, w: Instance)
    ensures w in WithoutId(ws, id) <==> w in ws && w.id != id
    ensures WithoutId(ws + more, id) == WithoutId(ws, id) + WithoutId(more, id)
    ensures (forall i :: 0 <= i < |ws| ==> ws[i].id != id) ==> WithoutId(ws, id) == ws
  {
    Seqs.FilterMembers(ws, OtherId(id), w);
    Seqs.FilterConcat(ws, more, OtherId(id));
    Seqs.FilterKeepsLength(ws, OtherId(id));
  }

  /** `Math.floor(Math.random() * 1000)`: a number from 0 to 999. */
  function DrawNumber(draw: UnitReal): (n: nat)
    ensures n < 1000
    ensures n as real <= draw * 1000.0 < n as real + 1.0
  {
    (draw * 1000.0).Floor
  }

  /** The id `addWidgetInstance` gives a new instance: `{type}_{timestamp}_{randomNum}`. */
  function NewInstanceId(widgetType: string, timestamp: nat, randomNum: nat): string {
    widgetType + "_" + NatToString(timestamp) + "_" + NatToString(randomNum)
  }

  /** Reads an instance id back into its type, timestamp and random number, splitting at the last two `_`. */
  function ParseInstanceId(id: string): Option<(string, nat, nat)>
  {
    var j := LastIndexOf(id, '_');
    if j == -1 then None
    else
      var rest, numPart := id[..j], id[j + 1..];
      var i := LastIndexOf(rest, '_');
      if i == -1 then None
      else
        var widgetType, stampPart := rest[..i], rest[i + 1..];
        if 1 <= |stampPart| && AllDigits(stampPart) && 1 <= |numPart| && AllDigits(numPart) then
          Some((widgetType, DigitsValue(stampPart), DigitsValue(numPart)))
        else
          None
  }

  /** A run of digits holds no underscore. */
  lemma DigitsHaveNoUnderscore(s: string)
    requires AllDigits(s)
    ensures '_' !in s
  {
    forall i | 0 <= i < |s|
      ensures s[i] != '_'
    {
      assert IsDigit(s[i]);
    }
  }

  /** Joining a prefix and a run of digits with `_` puts the last `_` between them. */
  lemma LastUnderscoreBeforeDigits(prefix: string, digits: string)
    requires AllDigits(digits)
    ensures var s := prefix + "_" + digits;
      && LastIndexOf(s, '_') == |prefix|
      && s[..|prefix|] == prefix && s[|prefix| + 1..] == digits
  {
    DigitsHaveNoUnderscore(digits);
    assert prefix + "_" + digits == prefix + ['_'] + digits;
    LastIndexOfSplit(prefix, '_', digits);
  }

  /**
   * A new instance id gives back its type, timestamp and random number, even
   * when the type name itself contains underscores.
   */
  lemma NewInstanceIdRoundTrip(widgetType: string, timestamp: nat, randomNum: nat)
    ensures ParseInstanceId(NewInstanceId(widgetType, timestamp, randomNum)) == Some((widgetType, timestamp, randomNum))
  {
    var stamp, num := NatToString(timestamp), NatToString(randomNum);
    NatToStringRoundTrip(timestamp);
    NatToStringRoundTrip(randomNum);
    LastUnderscoreBeforeDigits(widgetType + "_" + stamp, num);
    LastUnderscoreBeforeDigits(widgetType, stamp);
  }

  /** Instances added with a different type, timestamp or random number get different ids. */
  lemma NewInstanceIdInjective(t1: string, ts1: nat, n1: nat, t2: string, ts2: nat, n2: nat)
    requires NewInstanceId(t1, ts1, n1) == NewInstanceId(t2, ts2, n2)
    ensures t1 == t2 && ts1 == ts2 && n1 == n2
  {
    NewInstanceIdRoundTrip(t1, ts1, n1);
    NewInstanceIdRoundTrip(t2, ts2, n2);
  }

  /** The dashboard's widget manager. */
  class WidgetManager {
    /** The mounted elements, by instance id. */
    var widgets: map<string, Element>
    /** The widget types whose definitions were requested. */
    var availableWidgetTypes: set<string>
    /** The client's registry copy, sent back whole when an instance is removed. */
    var registry: ClientRegistry

    predicate Valid()
      reads this
    {
      WellFormed(widgets)
    }

    /** A new manager has nothing mounted, no types and an empty registry. */
    constructor ()
      ensures Valid()
      ensures widgets == map[] && availableWidgetTypes == {} && registry == ClientRegistry(None, Some([]))
    {
      widgets := map[];
      availableWidgetTypes := {};
      registry := ClientRegistry(None, Some([]));
    }

    /**
     * `createWidgetInstance`: nothing happens and nothing is returned when the
     * id is already mounted or its type is not available; otherwise an element
     * of tag `{type}-widget`, titled with the record's name and placed at its
     * position (or at a random one), is mounted under the id and returned.
     */
    method CreateWidgetInstance(inst: Instance, off: Offset) returns (el: Option<Element>)
      requires Valid()
      modifies this`widgets
      ensures Valid()
      ensures el.None? <==> inst.id in old(widgets) || inst.widgetType !in availableWidgetTypes
      ensures el.None? ==> widgets == old(widgets)
      ensures el.Some? ==>
        && el.value.tagName == inst.widgetType + "-widget"
        && el.value.widgetId == inst.id && el.value.widgetType == inst.widgetType
        && el.value.title == inst.name
        && (inst.position.Some? ==> el.value.position == inst.position.value)
        && (inst.position.None? ==> el.value.position == RandomPlacement(off.rx, off.ry))
        && widgets == old(widgets)[inst.id := el.value]
      ensures widgets == MountStep(old(widgets), inst, off, availableWidgetTypes)
      ensures TypesAvailable(old(widgets), availableWidgetTypes) ==> TypesAvailable(widgets, availableWidgetTypes)
    {
      if inst.id in widgets {
        return None;
      }
      if inst.widgetType !in availableWidgetTypes {
        return None;
      }
      var element := Mount(inst, off);
      widgets := widgets[inst.id := element];
      return Some(element);
    }

    /**
     * `loadWidgetDefinitions`: when the type list arrives, the available set
     * becomes exactly its ids (a missing list counts as empty), whether or not
     * each definition then loads, so the load outcomes are no input here; when
     * the request fails, the set is kept and the empty list returned.
     */
    method LoadWidgetDefinitions(response: Option<Option<seq<string>>>) returns (types: seq<string>)
      modifies this`availableWidgetTypes
      ensures response.None? ==> types == [] && availableWidgetTypes == old(availableWidgetTypes)
      ensures response.Some? ==>
        types == response.value.GetOr([]) && availableWidgetTypes == set t | t in types
    {
      if response.None? {
        return [];
      }
      types := response.value.GetOr([]);
      availableWidgetTypes := set t | t in types;
    }

    /** `clearWidgets`: every element is unmounted; the registry and the types stay. */
    method ClearWidgets()
      modifies this`widgets
      ensures Valid() && widgets == map[]
    {
      widgets := map[];
    }

    /**
     * `loadAllWidgets`: when the registry request fails, nothing changes and
     * the empty list is returned. Otherwise the fetched registry replaces the
     * client's copy wholesale, every element is unmounted, the widget types
     * are reloaded, and an instance is created for each record in order; the
     * records (or the empty list when the registry has none) are returned.
     */
    method LoadAllWidgets(snapshot: Option<ClientRegistry>, typesResponse: Option<Option<seq<string>>>, offs: seq<Offset>)
      returns (loaded: seq<Instance>)
      requires Valid()
      requires snapshot.Some? ==> |offs| == |snapshot.value.widgets.GetOr([])|
      modifies this`widgets, this`availableWidgetTypes, this`registry
      ensures Valid()
      ensures snapshot.None? ==>
        && loaded == [] && widgets == old(widgets) && registry == old(registry)
        && availableWidgetTypes == old(availableWidgetTypes)
      ensures snapshot.Some? ==>
        && registry == snapshot.value && loaded == snapshot.value.widgets.GetOr([])
        && (typesResponse.Some? ==> availableWidgetTypes == set t | t in typesResponse.value.GetOr([]))
        && (typesResponse.None? ==> availableWidgetTypes == old(availableWidgetTypes))
        && widgets == MountAll(map[], loaded, offs, availableWidgetTypes)
        && TypesAvailable(widgets, availableWidgetTypes)
    {
      if snapshot.None? {
        return [];
      }
      registry := snapshot.value;
      ClearWidgets();
      var _ := LoadWidgetDefinitions(typesResponse);
      loaded := snapshot.value.widgets.GetOr([]);
      ghost var available := availableWidgetTypes;
      var i := 0;
      while i < |loaded|
        invariant 0 <= i <= |loaded|
        invariant registry == snapshot.value && availableWidgetTypes == available
        invariant Valid() && TypesAvailable(widgets, availableWidgetTypes)
        invariant widgets == MountAll(map[], loaded[..i], offs[..i], availableWidgetTypes)
      {
        var _ := CreateWidgetInstance(loaded[i], offs[i]);
        assert loaded[..i + 1][..i] == loaded[..i];
        assert offs[..i + 1][..i] == offs[..i];
        i := i + 1;
      }
      assert loaded[..i] == loaded && offs[..i] == offs;
    }

    /**
     * `addWidgetInstance`: builds the record `{type}_{timestamp}_{randomNum}`
     * titled with the type's name and placed randomly, appends it to the
     * registry copy, then saves it; the instance is created only once the save
     * succeeds. A failed type lookup changes nothing. A failed save reports
     * failure but leaves the record in the registry copy, unmounted. A
     * registry copy without a `widgets` list makes the append throw, so
     * nothing changes and failure is reported.
     */
    method AddWidgetInstance(widgetType: string, timestamp: nat, idDraw: UnitReal, typeName: Option<Option<string>>,
                             placement: Offset, saved: bool) returns (outcome: AddOutcome)
      requires Valid()
      modifies this`widgets, this`registry
      ensures Valid()
      ensures typeName.None? || old(registry).widgets.None? ==>
        outcome.AddFailed? && widgets == old(widgets) && registry == old(registry)
      ensures typeName.Some? && old(registry).widgets.Some? ==>
        var inst := Instance(NewInstanceId(widgetType, timestamp, DrawNumber(idDraw)), widgetType, typeName.value,
                             Some(RandomPlacement(placement.rx, placement.ry)));
        && registry == old(registry).(widgets := Some(old(registry).widgets.value + [inst]))
        && (saved ==> outcome == Added(inst) && widgets == MountStep(old(widgets), inst, placement, availableWidgetTypes))
        && (!saved ==> outcome.AddFailed? && widgets == old(widgets))
    {
      var randomNum := DrawNumber(idDraw);
      var widgetId := NewInstanceId(widgetType, timestamp, randomNum);
      if typeName.None? {
        return AddFailed;
      }
      var inst := Instance(widgetId, widgetType, typeName.value, Some(RandomPlacement(placement.rx, placement.ry)));
      if registry.widgets.None? {
        return AddFailed;
      }
      registry := registry.(widgets := Some(registry.widgets.value + [inst]));
      if !saved {
        return AddFailed;
      }
      var _ := CreateWidgetInstance(inst, placement);
      return Added(inst);
    }

    /**
     * `removeWidgetInstance`: for a mounted id, the element is unmounted, every
     * record with the id leaves the registry copy (the others keep their
     * order) and the whole copy, registered types included, is sent with a
     * `PUT`, whose body is returned. An id that is not mounted changes nothing, even when the
     * registry has records with it. A registry copy without a `widgets` list
     * makes the filter throw after the unmount, so no `PUT` is sent.
     */
    method RemoveWidgetInstance(widgetId: string) returns (put: Option<ClientRegistry>)
      requires Valid()
      modifies this`widgets, this`registry
      ensures Valid()
      ensures widgetId in old(widgets) ==> widgets == old(widgets) - {widgetId}
      ensures widgetId in old(widgets) && old(registry).widgets.Some? ==>
        && registry == old(registry).(widgets := Some(WithoutId(old(registry).widgets.value, widgetId)))
        && put == Some(registry)
      ensures widgetId in old(widgets) && old(registry).widgets.None? ==> registry == old(registry) && put.None?
      ensures widgetId !in old(widgets) ==> widgets == old(widgets) && registry == old(registry) && put.None?
    {
      if widgetId !in widgets {
        return None;
      }
      widgets := widgets - {widgetId};
      if registry.widgets.None? {
        return None;
      }
      registry := registry.(widgets := Some(WithoutId(registry.widgets.value, widgetId)));
      return Some(registry);
    }

    /**
     * `reloadWidget`: unmount the id if it is mounted, then, when its record
     * arrives, create an instance from the fetched record; true exactly when
     * the record arrived.
     */
    method ReloadWidget(widgetId: string, fetched: Option<Instance>, off: Offset) returns (ok: bool)
      requires Valid()
      modifies this`widgets
      ensures Valid()
      ensures ok <==> fetched.Some?
      ensures fetched.None? ==> widgets == old(widgets) - {widgetId}
      ensures fetched.Some? ==> widgets == MountStep(old(widgets) - {widgetId}, fetched.value, off, availableWidgetTypes)
    {
      widgets := widgets - {widgetId};
      if fetched.None? {
        return false;
      }
      var _ := CreateWidgetInstance(fetched.value, off);
      return true;
    }

    /**
     * The `widgets-reload` listener. With a non-empty id list, every listed
     * id is unmounted at once (each reload unmounts before its first wait),
     * then the fetched records are created in list order. With an empty or
     * missing list, `loadAllWidgets` runs instead.
     */
    method OnWidgetsReload(widgetIds: Option<seq<string>>, fetched: seq<Option<Instance>>,
                           snapshot: Option<ClientRegistry>, typesResponse: Option<Option<seq<string>>>,
                           offs: seq<Offset>)
      requires Valid()
      requires widgetIds.Some? && |widgetIds.value| > 0 ==> |fetched| == |widgetIds.value| == |offs|
      requires !(widgetIds.Some? && |widgetIds.value| > 0) && snapshot.Some? ==> |offs| == |snapshot.value.widgets.GetOr([])|
      modifies this`widgets, this`availableWidgetTypes, this`registry
      ensures Valid()
      ensures widgetIds.Some? && |widgetIds.value| > 0 ==>
        && registry == old(registry) && availableWidgetTypes == old(availableWidgetTypes)
        && widgets == RemountAll(old(widgets) - (set id | id in widgetIds.value), fetched, offs, availableWidgetTypes)
      ensures !(widgetIds.Some? && |widgetIds.value| > 0) && snapshot.Some? ==>
        && registry == snapshot.value
        && (typesResponse.Some? ==> availableWidgetTypes == set t | t in typesResponse.value.GetOr([]))
        && (typesResponse.None? ==> availableWidgetTypes == old(availableWidgetTypes))
        && widgets == MountAll(map[], snapshot.value.widgets.GetOr([]), offs, availableWidgetTypes)
      ensures !(widgetIds.Some? && |widgetIds.value| > 0) && snapshot.None? ==>
        widgets == old(widgets) && registry == old(registry) && availableWidgetTypes == old(availableWidgetTypes)
    {
      if widgetIds.Some? && |widgetIds.value| > 0 {
        var ids := widgetIds.value;
        var i := 0;
        while i < |ids|
          invariant 0 <= i <= |ids|
          invariant Valid()
          invariant registry == old(registry) && availableWidgetTypes == old(availableWidgetTypes)
          invariant widgets == old(widgets) - (set id | id in ids[..i])
        {
          widgets := widgets - {ids[i]};
          assert ids[..i + 1] == ids[..i] + [ids[i]];
          i := i + 1;
        }
        assert ids[..i] == ids;
        ghost var start := widgets;
        var k := 0;
        while k < |fetched|
          invariant 0 <= k <= |fetched|
          invariant Valid()
          invariant registry == old(registry) && availableWidgetTypes == old(availableWidgetTypes)
          invariant widgets == RemountAll(start, fetched[..k], offs[..k], availableWidgetTypes)
        {
          if fetched[k].Some? {
            var _ := CreateWidgetInstance(fetched[k].value, offs[k]);
          }
          assert fetched[..k + 1][..k] == fetched[..k];
          assert offs[..k + 1][..k] == offs[..k];
          k := k + 1;
        }
        assert fetched[..k] == fetched && offs[..k] == offs;
      } else {
        var _ := LoadAllWidgets(snapshot, typesResponse, offs);
      }
    }

    /** The `widget-remove` listener: remove the instance its event names. */
    method OnWidgetRemove(detailWidgetId: string) returns (put: Option<ClientRegistry>)
      requires Valid()
      modifies this`widgets, this`registry
      ensures Valid()
      ensures widgets == old(widgets) - {detailWidgetId}
      ensures detailWidgetId in old(widgets) && old(registry).widgets.Some? ==>
        && registry == old(registry).(widgets := Some(WithoutId(old(registry).widgets.value, detailWidgetId)))
        && put == Some(registry)
      ensures detailWidgetId !in old(widgets) || old(registry).widgets.None? ==> registry == old(registry) && put.None?
    {
      put := RemoveWidgetInstance(detailWidgetId);
    }

    /** `getAvailableWidgetTypes`: the available types, each once. */
    method GetAvailableWidgetTypes() returns (types: seq<string>)
      ensures forall t :: t in types <==> t in availableWidgetTypes
      ensures forall i, j :: 0 <= i < j < |types| ==> types[i] != types[j]
    {
      types := [];
      var rest := availableWidgetTypes;
      while rest != {}
        invariant rest !! (set t | t in types)
        invariant forall t :: t in availableWidgetTypes <==> t in rest || t in types
        invariant forall i, j :: 0 <= i < j < |types| ==> types[i] != types[j]
        decreases rest
      {
        var t :| t in rest;
        types := types + [t];
        rest := rest - {t};
      }
    }
  }
}
