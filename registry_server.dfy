/**
 * The server's registry handlers. The registry is one JSON file holding the
 * widget types (`widgetTypes`) and the widget instances (`widgets`). The
 * handlers look records up in it, append to it, replace it, and edit one
 * record in place. Here the file is the `registry` field of a class. The
 * widget directory scan, the manifest files and the language model's
 * answers are inputs.
 */
module RegistryServer {
  import opened Common
  import opened Strings
  import Seqs
  import LlmHandler

  /** A widget instance as stored: every key may be missing, since clients send what they like. */
  datatype WidgetJson = WidgetJson(id: Option<string>, widgetType: Option<string>, name: Option<string>, position: Option<Position>)

  /** The registry file. Its `widgets` list is always present (a `PUT` without it is refused); `widgetTypes` may be absent. */
  datatype Registry = Registry(widgetTypes: Option<seq<TypeEntry>>, widgets: seq<WidgetJson>)

  /** The HTTP errors the handlers answer with: 400, 404, and 500 (an uncaught exception). */
  datatype HttpError = BadRequest | NotFound | ServerError

  /** A `manifest.json` as parsed: each key may be missing. */
  datatype Manifest = Manifest(id: Option<string>, name: Option<string>, description: Option<string>)

  /** What reading a directory's `manifest.json` gives. */
  datatype ManifestFile = NoManifest | Unparsable | Parsed(manifest: Manifest)

  /** One entry of the widgets directory, in the order the scan meets it. */
  datatype DirEntry = DirEntry(name: string, isDir: bool, manifestFile: ManifestFile)

  /** What `GET /api/widget-types/{type}` answers with: the registry entry, or the raw manifest. */
  datatype TypeInfo = Registered(entry: TypeEntry) | FromManifest(manifest: Manifest)

  /** The body of a widget-generation request: each key may be missing. */
  datatype GenerateRequest = GenerateRequest(id: Option<string>, name: Option<string>, description: Option<string>)

  /** The manifest written for a generated widget type. */
  datatype WrittenManifest = WrittenManifest(id: string, name: string, description: string, version: string, icon: string)

  /** The two files written for a generated widget type. */
  datatype GeneratedFiles = GeneratedFiles(code: string, manifest: WrittenManifest)

  /** The body of `PUT /api/widgets`: each key may be missing. */
  datatype RegistryBody = RegistryBody(widgetTypes: Option<seq<TypeEntry>>, widgets: Option<seq<WidgetJson>>)

  /** The answer of `POST /api/chat`. */
  datatype ChatReply = ChatReply(reply: string, reloadWidgets: seq<string>)

  /** The version every generated manifest gets. */
  const GeneratedVersion := "1.0.0"

  /** The icon every generated manifest gets, character for character as the handler's literal holds it. */
  const GeneratedIcon := "\U{F0}\U{178}\U{201D}\U{152}"

  /** The reply the chat handler falls back to when the language model fails. */
  const ChatApology := "I apologize, but I'm having trouble processing your request right now. Please try again later."

  /** The test the instance lookups use: the record's `id` equals the asked one. */
  function HasId(id: string): WidgetJson -> bool {
    (w: WidgetJson) => w.id == Some(id)
  }

  /** The test `delete_widget` keeps records by: the record's `id` is not the deleted one. */
  function NotId(id: string): WidgetJson -> bool {
    (w: WidgetJson) => w.id != Some(id)
  }

  /** The test the type lookups use: the entry's `id` equals the asked one. */
  function IsType(t: string): TypeEntry -> bool {
    (e: TypeEntry) => e.id == t
  }

  /** The index of the first instance with `id`, or `|ws|` when there is none. */
  function FirstWidgetIndex(ws: seq<WidgetJson>, id: string): (k: nat)
    ensures k <= |ws|
    ensures k < |ws| ==> ws[k].id == Some(id)
    ensures forall j :: 0 <= j < k ==> ws[j].id != Some(id)
  {
    Seqs.FirstIndex(ws, HasId(id))
  }

  /** The index of the first type entry with id `t`, or `|ts|` when there is none. */
  function FirstTypeIndex(ts: seq<TypeEntry>, t: string): (k: nat)
    ensures k <= |ts|
    ensures k < |ts| ==> ts[k].id == t
    ensures forall j :: 0 <= j < k ==> ts[j].id != t
  {
    Seqs.FirstIndex(ts, IsType(t))
  }

  /** The instances without any record whose `id` is `id`, the others in their order. */
  function WithoutWidget(ws: seq<WidgetJson>, id: string): (r: seq<WidgetJson>)
    ensures |r| <= |ws|
  {
    Seqs.Filter(ws, NotId(id))
  }

  /**
   * Deleting an id drops exactly the records with that id and keeps the rest
   * in order; the list keeps its length exactly when no record has the id,
   * and is then unchanged.
   */
  lemma WithoutWidgetFacts(ws: seq<WidgetJson>, more: seq<WidgetJson>, id: string, w: WidgetJson)
    ensures w in WithoutWidget(ws, id) <==> w in ws && w.id != Some(id)
    ensures WithoutWidget(ws + more, id) == WithoutWidget(ws, id) + WithoutWidget(more, id)
    ensures |WithoutWidget(ws, id)| == |ws| <==> forall i :: 0 <= i < |ws| ==> ws[i].id != Some(id)
    ensures |WithoutWidget(ws, id)| == |ws| ==> WithoutWidget(ws, id) == ws
  {
    Seqs.FilterMembers(ws, NotId(id), w);
    Seqs.FilterConcat(ws, more, NotId(id));
    Seqs.FilterKeepsLength(ws, NotId(id));
  }

  /** The type entry a directory contributes to the type list, when it contributes one. */
  function ScannedEntry(entry: DirEntry, registered: set<string>): Option<TypeEntry>
  {
    if entry.isDir && entry.name !in registered && entry.manifestFile.Parsed?
       && entry.manifestFile.manifest.id.Some? && entry.manifestFile.manifest.name.Some? then
      var m := entry.manifestFile.manifest;
      Some(TypeEntry(m.id.value, m.name.value, m.description.GetOr("")))
    else
      None
  }

  /** The entries the directory scan appends, in scan order. */
  function Scanned(dir: seq<DirEntry>, registered: set<string>): seq<TypeEntry>
  {
    if dir == [] then []
    else
      var n := |dir| - 1;
      var more := ScannedEntry(dir[n], registered);
      Scanned(dir[..n], registered) + (if more.Some? then [more.value] else [])
  }

  /**
   * Every scanned entry comes from a directory whose name is not a registered
   * type id and whose manifest parsed and has an `id` and a `name`; its
   * description is the manifest's, or empty.
   */
  lemma {:induction false} ScannedSound(dir: seq<DirEntry>, registered: set<string>, e: TypeEntry)
    requires e in Scanned(dir, registered)
    ensures exists i :: (0 <= i < |dir| && dir[i].isDir && dir[i].name !in registered && dir[i].manifestFile.Parsed?
      && var m := dir[i].manifestFile.manifest;
         m.id == Some(e.id) && m.name == Some(e.name) && e.description == m.description.GetOr(""))
  {
    var n := |dir| - 1;
    if e in Scanned(dir[..n], registered) {
      ScannedSound(dir[..n], registered, e);
      var i :| 0 <= i < n && dir[..n][i].isDir && dir[..n][i].name !in registered && dir[..n][i].manifestFile.Parsed?
        && var m := dir[..n][i].manifestFile.manifest;
           m.id == Some(e.id) && m.name == Some(e.name) && e.description == m.description.GetOr("");
      assert dir[..n][i] == dir[i];
    } else {
      assert ScannedEntry(dir[n], registered) == Some(e);
    }
  }

  /** Every directory that qualifies contributes its entry, in the order the scan meets the directories. */
  lemma {:induction false} ScannedComplete(dir: seq<DirEntry>, registered: set<string>, i: nat)
    requires i < |dir| && ScannedEntry(dir[i], registered).Some?
    ensures ScannedEntry(dir[i], registered).value in Scanned(dir, registered)
    ensures Scanned(dir, registered) ==
      Scanned(dir[..i], registered) + [ScannedEntry(dir[i], registered).value] + Scanned(dir[i + 1..], registered)
  {
    ScannedConcat(dir[..i + 1], dir[i + 1..], registered);
    assert dir[..i + 1] + dir[i + 1..] == dir;
    assert dir[..i + 1][..i] == dir[..i];
  }

  /** Scanning two runs of entries one after the other appends their contributions. */
  lemma {:induction false} ScannedConcat(a: seq<DirEntry>, b: seq<DirEntry>, registered: set<string>)
    ensures Scanned(a + b, registered) == Scanned(a, registered) + Scanned(b, registered)
  {
    if b != [] {
      var n := |b| - 1;
      assert (a + b)[..|a + b| - 1] == a + b[..n];
      assert (a + b)[|a + b| - 1] == b[n];
      ScannedConcat(a, b[..n], registered);
    } else {
      assert a + b == a;
    }
  }

  /** The ids of the given type entries, in order. */
  function TypeIds(types: seq<TypeEntry>): (ids: seq<string>)
    ensures |ids| == |types|
    ensures forall i :: 0 <= i < |types| ==> ids[i] == types[i].id
  {
    if types == [] then [] else [types[0].id] + TypeIds(types[1..])
  }

  /** The type list of the chat context: the ids joined by `, `, or `None` when there are no types. */
  function TypesLine(types: seq<TypeEntry>): string
  {
    if |types| == 0 then "None" else Join(TypeIds(types), ", ")
  }

  /** The opening of the chat context, up to the type list. */
  const ContextHeader := "\nCurrent system state:\n- Available widget types: "

  /** The system-state part of the chat prompt. */
  function ChatContext(reg: Registry): string
  {
    ContextHeader + TypesLine(reg.widgetTypes.GetOr([]))
      + "\n- Active widget instances: " + NatToString(|reg.widgets|) + "\n"
  }

  /**
   * The type list read from the back: `None` for no types, the lone id for
   * one, and for more the list of all but the last, `, ` and the last id. So
   * it holds every id once, in registry order.
   */
  lemma TypesLineSnoc(types: seq<TypeEntry>, t: TypeEntry)
    ensures TypesLine([]) == "None"
    ensures TypesLine([t]) == t.id
    ensures types != [] ==> TypesLine(types + [t]) == TypesLine(types) + ", " + t.id
  {
    assert TypeIds([t]) == [t.id];
    if types != [] {
      assert TypeIds(types + [t]) == TypeIds(types) + [t.id];
      JoinSnoc(TypeIds(types), ", ", t.id);
    }
  }

  /**
   * The chat context starts with the header and the type list on its own
   * line, names every registered type id, says `None` when there are none,
   * and ends with the number of widget instances in decimal.
   */
  lemma ChatContextFacts(reg: Registry, k: nat)
    ensures var types := reg.widgetTypes.GetOr([]);
      && (|types| == 0 ==> TypesLine(types) == "None")
      && (k < |types| ==> Contains(TypesLine(types), types[k].id))
      && StartsWith(ChatContext(reg), ContextHeader + TypesLine(types) + "\n")
      && EndsWith(ChatContext(reg), "\n- Active widget instances: " + NatToString(|reg.widgets|) + "\n")
  {
    var types := reg.widgetTypes.GetOr([]);
    if k < |types| {
      JoinContainsParts(TypeIds(types), ", ", k);
    }
    var line := TypesLine(types);
    var tail := "\n- Active widget instances: " + NatToString(|reg.widgets|) + "\n";
    var c := ChatContext(reg);
    assert c == ContextHeader + line + tail;
    assert c[..|ContextHeader + line + "\n"|] == ContextHeader + line + "\n";
    assert c[|c| - |tail|..] == tail;
  }

  /** The registry file and the handlers that read and write it. */
  class RegistryStore {
    var registry: Registry

    /** The file as first created: no types and no instances. */
    constructor ()
      ensures registry == Registry(Some([]), [])
    {
      registry := Registry(Some([]), []);
    }

    /** `get_widget_from_registry`: the first instance with the id, or nothing. */
    method GetWidgetFromRegistry(id: string) returns (w: Option<WidgetJson>)
      ensures w.None? <==> forall i :: 0 <= i < |registry.widgets| ==> registry.widgets[i].id != Some(id)
      ensures w.Some? ==> w.value.id == Some(id)
      ensures w.Some? ==> w.value == registry.widgets[FirstWidgetIndex(registry.widgets, id)]
    {
      var ws := registry.widgets;
      var i := 0;
      while i < |ws|
        invariant 0 <= i <= |ws|
        invariant forall j :: 0 <= j < i ==> ws[j].id != Some(id)
      {
        if ws[i].id == Some(id) {
          assert FirstWidgetIndex(ws, id) == i;
          return Some(ws[i]);
        }
        i := i + 1;
      }
      return None;
    }

    /** `GET /api/widgets/{id}`: the first instance with the id, or 404. */
    method GetWidgetInstance(id: string) returns (r: Result<WidgetJson, HttpError>)
      ensures r.Err? <==> forall i :: 0 <= i < |registry.widgets| ==> registry.widgets[i].id != Some(id)
      ensures r.Err? ==> r.error == NotFound
      ensures r.Ok? ==> r.value == registry.widgets[FirstWidgetIndex(registry.widgets, id)]
    {
      var w := GetWidgetFromRegistry(id);
      if w.None? {
        return Err(NotFound);
      }
      return Ok(w.value);
    }

    /**
     * `POST /api/widgets`: a missing widget, or one without `id` or `type`,
     * is refused with 400 and the file is left alone; otherwise the widget is
     * appended at the end as sent, even when its id is already present.
     */
    method AddWidgetInstance(widget: Option<WidgetJson>) returns (r: Result<WidgetJson, HttpError>)
      modifies this
      ensures widget.None? || widget.value.id.None? || widget.value.widgetType.None? ==>
        r == Err(BadRequest) && registry == old(registry)
      ensures widget.Some? && widget.value.id.Some? && widget.value.widgetType.Some? ==>
        && r == Ok(widget.value)
        && registry == old(registry).(widgets := old(registry).widgets + [widget.value])
    {
      if widget.None? || widget.value.id.None? || widget.value.widgetType.None? {
        return Err(BadRequest);
      }
      registry := registry.(widgets := registry.widgets + [widget.value]);
      return Ok(widget.value);
    }

    /** `PUT /api/widgets`: a body without `widgets` is refused with 400; otherwise it becomes the file. */
    method UpdateRegistry(body: RegistryBody) returns (err: Option<HttpError>)
      modifies this
      ensures body.widgets.None? ==> err == Some(BadRequest) && registry == old(registry)
      ensures body.widgets.Some? ==> err.None? && registry == Registry(body.widgetTypes, body.widgets.value)
    {
      if body.widgets.None? {
        return Some(BadRequest);
      }
      registry := Registry(body.widgetTypes, body.widgets.value);
      return None;
    }

    /**
     * `POST /api/widgets/{id}/position`: 404 when no instance has the id;
     * otherwise the first instance with the id gets the new position and
     * nothing else changes. Reading `["id"]` of an instance without an id
     * raises, so an id-less instance before the first match makes it fail
     * with 500 and nothing is saved.
     */
    method UpdateWidgetPosition(id: string, pos: Position) returns (err: Option<HttpError>)
      modifies this
      ensures var ws := old(registry).widgets;
        var k := FirstWidgetIndex(ws, id);
        && (k == |ws| ==> err == Some(NotFound) && registry == old(registry))
        && (k < |ws| && (exists j :: 0 <= j < k && ws[j].id.None?) ==>
              err == Some(ServerError) && registry == old(registry))
        && (k < |ws| && (forall j :: 0 <= j < k ==> ws[j].id.Some?) ==>
              && err.None?
              && registry == old(registry).(widgets := ws[k := ws[k].(position := Some(pos))]))
    {
      var found := GetWidgetFromRegistry(id);
      if found.None? {
        return Some(NotFound);
      }
      var ws := registry.widgets;
      ghost var k := FirstWidgetIndex(ws, id);
      var i := 0;
      while ws[i].id != Some(id)
        invariant 0 <= i <= k
        invariant forall j :: 0 <= j < i ==> ws[j].id.Some?
        decreases k - i
      {
        if ws[i].id.None? {
          return Some(ServerError);
        }
        i := i + 1;
      }
      registry := registry.(widgets := ws[i := ws[i].(position := Some(pos))]);
      return None;
    }

    /**
     * `DELETE /api/widgets/{id}`: every instance with the id is removed, the
     * others keep their order; when none had it, 404 and nothing is saved.
     */
    method DeleteWidget(id: string) returns (err: Option<HttpError>)
      modifies this
      ensures err.Some? <==> forall i :: 0 <= i < |old(registry).widgets| ==> old(registry).widgets[i].id != Some(id)
      ensures err.Some? ==> err.value == NotFound && registry == old(registry)
      ensures err.None? ==> registry == old(registry).(widgets := WithoutWidget(old(registry).widgets, id))
      ensures forall i :: 0 <= i < |registry.widgets| ==> registry.widgets[i].id != Some(id)
    {
      var ws := registry.widgets;
      var kept := WithoutWidget(ws, id);
      forall i | 0 <= i < |kept|
        ensures kept[i].id != Some(id)
      {
        WithoutWidgetFacts(ws, [], id, kept[i]);
      }
      WithoutWidgetFacts(ws, [], id, WidgetJson(None, None, None, None));
      if |kept| == |ws| {
        return Some(NotFound);
      }
      registry := registry.(widgets := kept);
      return None;
    }

    /**
     * `GET /api/widget-types`: the registered types in order, then an entry
     * for each directory whose name is not a registered type id and whose
     * manifest parses and has `id` and `name`, the description defaulting to
     * empty. Unreadable manifests are skipped; nothing is saved.
     */
    method ListWidgetTypes(dir: seq<DirEntry>) returns (types: seq<TypeEntry>)
      ensures var base := registry.widgetTypes.GetOr([]);
        types == base + Scanned(dir, set e | e in base :: e.id)
    {
      var base := registry.widgetTypes.GetOr([]);
      var registered := set e | e in base :: e.id;
      types := base;
      var i := 0;
      while i < |dir|
        invariant 0 <= i <= |dir|
        invariant types == base + Scanned(dir[..i], registered)
      {
        var item := dir[i];
        if item.isDir && item.name !in registered {
          match item.manifestFile {
            case NoManifest =>
            case Unparsable =>
            case Parsed(m) =>
              if m.id.Some? && m.name.Some? {
                types := types + [TypeEntry(m.id.value, m.name.value, m.description.GetOr(""))];
              }
          }
        }
        assert dir[..i + 1][..i] == dir[..i];
        i := i + 1;
      }
      assert dir[..i] == dir;
    }

    /**
     * `GET /api/widget-types/{type}`: the first registered entry with that id;
     * otherwise the type directory's manifest, of which the model keeps the
     * `id`, `name` and `description`; 404 when there is none, and 500 when it
     * does not parse.
     */
    method GetWidgetType(widgetType: string, manifestFile: ManifestFile) returns (r: Result<TypeInfo, HttpError>)
      ensures var ts := registry.widgetTypes.GetOr([]);
        var k := FirstTypeIndex(ts, widgetType);
        && (k < |ts| ==> r == Ok(Registered(ts[k])))
        && (k == |ts| && manifestFile.Parsed? ==> r == Ok(FromManifest(manifestFile.manifest)))
        && (k == |ts| && manifestFile.Unparsable? ==> r == Err(ServerError))
        && (k == |ts| && manifestFile.NoManifest? ==> r == Err(NotFound))
    {
      var ts := registry.widgetTypes.GetOr([]);
      var i := 0;
      while i < |ts|
        invariant 0 <= i <= |ts|
        invariant forall j :: 0 <= j < i ==> ts[j].id != widgetType
      {
        if ts[i].id == widgetType {
          assert FirstTypeIndex(ts, widgetType) == i;
          return Ok(Registered(ts[i]));
        }
        i := i + 1;
      }
      match manifestFile {
        case Parsed(m) => return Ok(FromManifest(m));
        case Unparsable => return Err(ServerError);
        case NoManifest => return Err(NotFound);
      }
    }

    /**
     * The bookkeeping of `POST /api/llm/generate-widget`. A request without
     * `id`, `name` or `description` is refused with 400, and so is an id that
     * is already a registered type. A failed language-model call gives 500.
     * Otherwise the widget code (the model's stripped answer with its code
     * fence removed) and a version-1.0.0 manifest are written, and exactly
     * one `{id, name, description}` entry is appended to the registered
     * types. When the registry has no `widgetTypes` list, that append raises:
     * the files are written but the answer is 500 and the registry is left
     * as it was.
     */
    method GenerateWidget(req: GenerateRequest, llmAnswer: Option<string>)
      returns (r: Result<WrittenManifest, HttpError>, files: Option<GeneratedFiles>)
      modifies this
      ensures req.id.None? || req.name.None? || req.description.None? ==>
        r == Err(BadRequest) && files.None? && registry == old(registry)
      ensures req.id.Some? && req.name.Some? && req.description.Some? ==>
        var ts := old(registry).widgetTypes.GetOr([]);
        var entry := TypeEntry(req.id.value, req.name.value, req.description.value);
        var manifest := WrittenManifest(entry.id, entry.name, entry.description, GeneratedVersion, GeneratedIcon);
        && ((exists i :: 0 <= i < |ts| && ts[i].id == entry.id) ==>
              r == Err(BadRequest) && files.None? && registry == old(registry))
        && ((forall i :: 0 <= i < |ts| ==> ts[i].id != entry.id) && llmAnswer.None? ==>
              r == Err(ServerError) && files.None? && registry == old(registry))
        && ((forall i :: 0 <= i < |ts| ==> ts[i].id != entry.id) && llmAnswer.Some? ==>
              && files == Some(GeneratedFiles(LlmHandler.ExtractWidgetCode(Strip(llmAnswer.value)), manifest))
              && (old(registry).widgetTypes.None? ==> r == Err(ServerError) && registry == old(registry))
              && (old(registry).widgetTypes.Some? ==>
                    && r == Ok(manifest)
                    && registry == old(registry).(widgetTypes := Some(ts + [entry]))))
    {
      if req.id.None? || req.name.None? || req.description.None? {
        return Err(BadRequest), None;
      }
      var widgetId := req.id.value;
      var ts := registry.widgetTypes.GetOr([]);
      var i := 0;
      while i < |ts|
        invariant 0 <= i <= |ts|
        invariant forall j :: 0 <= j < i ==> ts[j].id != widgetId
      {
        if ts[i].id == widgetId {
          return Err(BadRequest), None;
        }
        i := i + 1;
      }
      if llmAnswer.None? {
        return Err(ServerError), None;
      }
      var code := LlmHandler.ExtractWidgetCode(Strip(llmAnswer.value));
      var manifest := WrittenManifest(widgetId, req.name.value, req.description.value, GeneratedVersion, GeneratedIcon);
      files := Some(GeneratedFiles(code, manifest));
      if registry.widgetTypes.None? {
        return Err(ServerError), files;
      }
      var entry := TypeEntry(widgetId, req.name.value, req.description.value);
      registry := registry.(widgetTypes := Some(registry.widgetTypes.value + [entry]));
      r := Ok(manifest);
    }

    /**
     * `POST /api/chat`: a missing or empty message is refused with 400.
     * Otherwise the system-state context is built from the registry, and the
     * reply is the model's stripped answer, or a fixed apology when the call
     * fails; `reloadWidgets` is empty either way.
     */
    method ChatWithLlm(message: Option<string>, completion: Option<string>)
      returns (r: Result<ChatReply, HttpError>, context: Option<string>)
      ensures message.None? || message.value == "" ==> r == Err(BadRequest) && context.None?
      ensures message.Some? && message.value != "" ==>
        && r.Ok? && r.value.reloadWidgets == []
        && context == Some(ChatContext(registry))
        && (completion.Some? ==> r.value.reply == Strip(completion.value))
        && (completion.None? ==> r.value.reply == ChatApology)
    {
      if message.None? || message.value == "" {
        return Err(BadRequest), None;
      }
      context := Some(ChatContext(registry));
      if completion.None? {
        return Ok(ChatReply(ChatApology, [])), context;
      }
      r := Ok(ChatReply(Strip(completion.value), []));
    }
  }
}
