# Widget dashboard registry bookkeeping, in Dafny

This project models the bookkeeping core of a widget dashboard. On the
client, a widget manager keeps a copy of the server's registry,
mounts one element per instance, and tracks which widget types it has
loaded. On the server, HTTP handlers keep the registry file: a list of
widget types and a list of widget instances. Around them sit three small
pieces of pure logic:

- the string handling that cuts generated widget code out of a language
  model's answer;
- the time formatting of the digital clock widget;
- the dial arithmetic of the Swiss railway clock widget.

Modules and files:

| file | module | models |
|---|---|---|
| `common.dfy` | `Common` | `Option`, `Result`, widget positions, the random default placement |
| `seqs.dfy` | `Seqs` | list filtering and first-match search, with their lemmas |
| `strings.dfy` | `Strings` | the JavaScript and Python string operations the core relies on: decimal rendering, `padStart`, `find`, `in`, `split(sep)[1]`, `startswith`, `endswith`, `strip`, `join`; also `lastIndexOf`, which no source file calls but with which the model reads an instance id back into its parts |
| `dashboard.dfy` | `Dashboard` | `static/js/widget-manager.js`: class `WidgetManager` |
| `legacy_dashboard.dfy` | `LegacyDashboard` | `frontend/js/widget-manager.js`: the older class `WidgetManager` |
| `registry_server.dfy` | `RegistryServer` | the registry handlers of `app.py`: class `RegistryStore`, whose `registry` field is the JSON file |
| `llm_handler.dfy` | `LlmHandler` | `_extract_widget_code` and the string part of `_load_widget_base_template` in `llm_handler.py` |
| `clock.dfy` | `Clock` | `static/widgets/clock/widget.js` and `widgets/clock/widget.js` |
| `swiss_clock.dfy` | `SwissClock` | `static/widgets/swiss/widget.js` |

The two clock files hold the same time logic at the same lines, 35-59. They
differ elsewhere:

- the import on line 1 (the copy under `widgets/` also imports `LitElement`);
- the property the constructor sets (`widgetType` or `widgetId`);
- the render method: `renderWidgetContent` under `static/`, and under
  `widgets/` a `render` that adds its own header with settings and close
  buttons (lines 99-118);
- hence where the toggle handler sits (112-115 and 123-126).

None of this touches the time logic, which is what the model holds. The rows
below cite one file or the other.

Whatever the program gets from outside is a parameter:

- an HTTP answer: `None` for a failed request, otherwise the parsed body;
- a script-load outcome;
- a `Math.random()` draw, as a real in [0, 1);
- `Date.now()`, and the current hour, minute and second;
- the locale date string;
- the widget directory listing and its manifest files;
- the language model's answer.

The JSON file behind the server's handlers is the `registry` field of
`RegistryServer.RegistryStore`. The client manager's map, type set and
registry copy are the fields `widgets`, `availableWidgetTypes` and
`registry` of `Dashboard.WidgetManager`. The registry copy holds both lists
of the fetched object, `widgetTypes` and `widgets`.

Behaviour worth noting:

- Each type-list answer replaces the available-type set with the ids it
  lists (`static/js/widget-manager.js:105`), so a type can drop out of it.
  A type counts as available as soon as it is listed, whether or not its
  definition then loads.
- `addWidgetInstance` appends the new record to the client's registry copy
  *before* saving it (`static/js/widget-manager.js:240`). A failed save
  reports failure but leaves the record in the copy, unmounted. The next
  `PUT` from `removeWidgetInstance` then writes it to the server.
- `loadWidgetDefinitions` injects a script for every listed type each time
  it runs, including types loaded before.
- The mounted elements and the registry copy are kept apart:
  - `createWidgetInstance` never looks at the copy;
  - `reloadWidget` mounts whatever record the server returns;
  - `addWidgetInstance` mounts an instance only if its type is available.
- Removal in the newer manager sends the whole registry copy with a `PUT`:
  the registered types as fetched and the filtered instance list. The server
  stores that body wholesale.

## Model

| member | source | states |
|---|---|---|
| Common.RandomPlacement | static/js/widget-manager.js:197-202 | a record without position is placed at 100 px plus an offset below 100 px on each axis, 300 by 200 px |
| Strings.NatToStringRoundTrip | static/js/widget-manager.js:215 | the decimal rendering of a timestamp or random number reads back as that number |
| Strings.PadStart2 | static/widgets/clock/widget.js:40-41 | `padStart(2, '0')` of a clock field is always two digits that denote the field |
| Strings.SplitSecond | llm_handler.py:33 | `split(sep)[1]` starts right after the first separator and runs up to where the next one begins, or to the end; no separator starts inside it |
| Strings.Find | llm_handler.py:129 | `find` gives -1 exactly when the pattern is absent, otherwise the first place it occurs |
| Strings.StripSpec | llm_handler.py:38 | `strip` removes only whitespace, from both ends, and leaves a result that neither starts nor ends with whitespace |
| Strings.StripUnique | llm_handler.py:38 | a string is a slice with only whitespace cut away and non-whitespace ends exactly when it is what `strip` returns |
| Strings.JoinSnoc | app.py:303 | joining one more part appends the separator and the part; one part joins to itself |
| Strings.LastIndexOfSplit | static/js/widget-manager.js:215 | the last `_` of `x_y` is the separator when `y` holds no `_`, which is what lets an instance id be split again |
| Dashboard.MountStepFacts | static/js/widget-manager.js:176-209 | one create mounts exactly the record's id, when that id is new and its type available, and keeps every element filed under its id with tag `{type}-widget` |
| Dashboard.MountAllMounts | static/js/widget-manager.js:80-84 | creating records in order mounts an id exactly when a record with it has an available type; the map stays well formed and only available types get mounted |
| Dashboard.MountAllFirst | static/js/widget-manager.js:178-181 | among records sharing an id, the first with an available type is the one mounted; later duplicates are ignored |
| Dashboard.RemountAllMounts | static/js/widget-manager.js:36-60 | remounting fetched records mounts an id exactly when it stayed mounted or a fetched record with an available type carries it |
| Dashboard.WithoutIdFacts | static/js/widget-manager.js:277 | filtering out an id drops exactly the records with that id, keeps the others in order, and changes nothing when no record has it |
| Dashboard.DrawNumber | static/js/widget-manager.js:214 | `Math.floor(Math.random() * 1000)` is a number from 0 to 999 |
| Dashboard.NewInstanceIdRoundTrip | static/js/widget-manager.js:213-215 | the id `{type}_{timestamp}_{randomNum}` gives back its type, timestamp and number, even for a type containing `_` |
| Dashboard.NewInstanceIdInjective | static/js/widget-manager.js:215 | different type, timestamp or random number give different ids |
| Dashboard.WidgetManager.constructor | static/js/widget-manager.js:6-12 | a new manager has nothing mounted, no types and the registry copy `{widgets: []}` |
| Dashboard.WidgetManager.CreateWidgetInstance | static/js/widget-manager.js:176-209 | a mounted id or an unavailable type returns nothing and changes nothing; otherwise the element (tag `{type}-widget`, title the record's name, the record's position or a random one) is added under the id and nothing else changes |
| Dashboard.WidgetManager.LoadWidgetDefinitions | static/js/widget-manager.js:93-116 | the available set becomes exactly the listed type ids, whatever the definition loads do; a failed request keeps it and returns `[]` |
| Dashboard.WidgetManager.ClearWidgets | static/js/widget-manager.js:292-298 | every element is unmounted |
| Dashboard.WidgetManager.LoadAllWidgets | static/js/widget-manager.js:62-91 | a failed fetch returns `[]` and changes nothing; otherwise the registry is replaced wholesale, the map emptied, the types reloaded, and the records created in order, so only available types end up mounted |
| Dashboard.WidgetManager.AddWidgetInstance | static/js/widget-manager.js:211-265 | the record `{type}_{timestamp}_{randomNum}` is appended to the registry before the save; a failed save reports failure and leaves it there unmounted; a failed type lookup changes nothing |
| Dashboard.WidgetManager.RemoveWidgetInstance | static/js/widget-manager.js:267-290 | only a mounted id acts: it is unmounted, every record with it is filtered out of the registry copy, and the whole copy, registered types included, is sent with a `PUT`; an unmounted id changes nothing even when the registry has it |
| Dashboard.WidgetManager.ReloadWidget | static/js/widget-manager.js:36-60 | the id is unmounted, then the fetched record, if any, is created; true exactly when it arrived |
| Dashboard.WidgetManager.OnWidgetsReload | static/js/widget-manager.js:23-32 | a non-empty id list unmounts every listed id, then creates the fetched records in list order, leaving registry and types alone; an empty or missing list runs the full reload, with the types set from the type list |
| Dashboard.WidgetManager.OnWidgetRemove | static/js/widget-manager.js:16-20 | a `widget-remove` event removes the instance it names: unmounted, filtered out of the registry copy, the copy sent with a `PUT`; nothing changes for an unmounted id |
| Dashboard.WidgetManager.GetAvailableWidgetTypes | static/js/widget-manager.js:301-303 | the available types, each exactly once |
| LegacyDashboard.LoadAllMounts | frontend/js/widget-manager.js:41-42 | loading a list mounts an id exactly when it was mounted or some listing of it got both its details and its definition; elements stay filed under their id with tag `{id}-widget` |
| LegacyDashboard.WidgetManager.constructor | frontend/js/widget-manager.js:6-10 | a new manager has nothing mounted |
| LegacyDashboard.WidgetManager.CreateWidget | frontend/js/widget-manager.js:118-139 | a mounted id is a no-op; otherwise the element tagged `{id}-widget`, titled with `name`, at the record's position or `{100, 100, 300, 200}`, is added under the id |
| LegacyDashboard.WidgetManager.RemoveWidget | frontend/js/widget-manager.js:141-157 | a mounted id is unmounted and exactly one `DELETE` for it is issued; an unknown id changes nothing and issues none |
| LegacyDashboard.WidgetManager.ClearWidgets | frontend/js/widget-manager.js:159-165 | the map is left empty |
| LegacyDashboard.WidgetManager.LoadWidget | frontend/js/widget-manager.js:51-85 | true, and mounted unless already there, exactly when the details arrived and the element got defined; otherwise false with nothing mounted |
| LegacyDashboard.WidgetManager.LoadAllWidgets | frontend/js/widget-manager.js:27-49 | a failed listing leaves the mounted widgets alone and returns `[]`; otherwise all are cleared and each listed id is loaded in order |
| LegacyDashboard.WidgetManager.OnWidgetClose | frontend/js/widget-manager.js:14-17 | a `widget-close` event removes exactly the widget named in its detail, issuing a `DELETE` only when it was mounted |
| RegistryServer.WithoutWidgetFacts | app.py:277-280 | deleting an id drops exactly the records with it and keeps the others in order; the length is unchanged exactly when no record has the id |
| RegistryServer.ScannedSound | app.py:164-177 | every scanned type entry comes from a directory not named after a registered type, whose manifest parsed with `id` and `name`; its description is the manifest's or empty |
| RegistryServer.ScannedComplete | app.py:164-177 | every qualifying directory contributes its entry, in scan order |
| RegistryServer.ScannedConcat | app.py:164 | the scan of two runs of directories is the scan of the first followed by that of the second |
| RegistryServer.TypesLineSnoc | app.py:303 | the type line is `None` for no types, the lone id for one, and otherwise the line of all but the last type, `, ` and the last id: every id once, in registry order |
| RegistryServer.ChatContextFacts | app.py:301-305 | the chat context opens with the header and the type line, names every type id, says `None` when there are none, and ends with the instance count in decimal |
| RegistryServer.RegistryStore.constructor | app.py:49-54 | the registry file starts with no types and no instances |
| RegistryServer.RegistryStore.GetWidgetFromRegistry | app.py:69-75 | the first instance whose id matches, or nothing exactly when none matches |
| RegistryServer.RegistryStore.GetWidgetInstance | app.py:126-133 | the first matching instance, or 404 exactly when none matches |
| RegistryServer.RegistryStore.AddWidgetInstance | app.py:95-110 | a missing widget, id or type gives 400 and no change; otherwise the widget is appended at the end without deduplication |
| RegistryServer.RegistryStore.UpdateRegistry | app.py:112-124 | a body without `widgets` gives 400 and no change; otherwise the stored registry becomes exactly the body |
| RegistryServer.RegistryStore.UpdateWidgetPosition | app.py:135-152 | 404 for an unknown id; 500 and no change when an id-less instance precedes the first match; otherwise only the first match's position changes |
| RegistryServer.RegistryStore.DeleteWidget | app.py:270-285 | every instance with the id is removed, the rest keep their order; 404 with nothing saved exactly when none matched |
| RegistryServer.RegistryStore.ListWidgetTypes | app.py:154-181 | the registered types in order, then the scanned manifest entries |
| RegistryServer.RegistryStore.GetWidgetType | app.py:183-202 | the first registered entry with the id, else the manifest; 404 without one, 500 when it does not parse |
| RegistryServer.RegistryStore.GenerateWidget | app.py:204-268 | missing fields or an existing type id give 400; a failed model call gives 500; otherwise the extracted code and a version 1.0.0 manifest are written and exactly one `{id, name, description}` type entry is appended |
| RegistryServer.RegistryStore.ChatWithLlm | app.py:287-337 | a missing or empty message gives 400; otherwise the reply is the stripped answer or the fixed apology, and `reloadWidgets` is empty on both paths |
| LlmHandler.ExtractWidgetCode | llm_handler.py:122-131 | the result is always a piece of the answer, and holds no fence when the answer had a JavaScript fence |
| LlmHandler.FencedSegment | llm_handler.py:127 | the segment starts right after the first fence and runs up to where the next fence begins, or to the end; it holds no fence |
| LlmHandler.ExtractUnchangedIffNoFence | llm_handler.py:125-131 | the answer comes back unchanged exactly when it has no "```javascript" or "```js" |
| LlmHandler.ExtractFencedSegment | llm_handler.py:126-129 | with a fence, the segment is returned, minus everything through its first newline when it starts with `javascript` or `js`; a tagged segment without newline is kept whole |
| LlmHandler.JsonFenceIsStripped | llm_handler.py:126-129 | a "```json" fence is stripped too, leaving exactly the body |
| LlmHandler.LoadWidgetBaseTemplate | llm_handler.py:17-46 | a missing file, a read error and a missing class each give their fixed comment |
| LlmHandler.TemplateFromClassText | llm_handler.py:32-40 | the template is `class WidgetBase` plus the text after the first marker, up to where any next one begins; only when it ends with `}` is the brace dropped and the rest is what `strip` makes of it |
| Clock.Hour12 | static/widgets/clock/widget.js:48-49 | the 12-hour hour is in 1..12, and hours 0 and 12 show as 12 |
| Clock.FormatTime | static/widgets/clock/widget.js:43-51 | 24-hour mode gives `HH:MM:SS`; 12-hour mode ends with ` AM` exactly before noon and ` PM` exactly from noon |
| Clock.Format24RoundTrip | widgets/clock/widget.js:44-45 | the 24-hour string reads back as the hour, minute and second, each two digits |
| Clock.Format12RoundTrip | widgets/clock/widget.js:47-50 | the 12-hour string, hour with suffix, reads back as the 0-23 hour, minute and second |
| Clock.Hour12Determines | widgets/clock/widget.js:47-49 | the 12-hour hour together with its suffix determines the hour of the day |
| Clock.FormatTimeInjective | static/widgets/clock/widget.js:39-51 | in either mode, different times show as different strings |
| Clock.ClockWidget.constructor | static/widgets/clock/widget.js:12-20 | a new clock shows nothing and is in 12-hour mode |
| Clock.ClockWidget.UpdateTime | static/widgets/clock/widget.js:35-59 | the shown time is the formatted current time in the current mode, and the date the given one |
| Clock.ClockWidget.ToggleFormat | widgets/clock/widget.js:123-126 | the mode becomes the checkbox value and the time is shown again in it |
| SwissClock.HandAngles | static/widgets/swiss/widget.js:159-161 | the hour angle lies in [0, 360) and is 30 times the hour on the hour; minute and second angles are multiples of 6 below 360 |
| SwissClock.HourHandAdvances | static/widgets/swiss/widget.js:159 | a later time in the same turn puts the hour hand further round, half a degree per minute |
| SwissClock.HandsShowTheTime | static/widgets/swiss/widget.js:160-161 | the three hands determine the hour, minute and second |
| SwissClock.HourHandOnMarker | static/widgets/swiss/widget.js:159-190 | on the hour, the hour hand points at the hour marker of step 5 times the hour |
| SwissClock.SwissClockWidget.constructor | static/widgets/swiss/widget.js:12-20 | a new clock shows 12 o'clock |
| SwissClock.SwissClockWidget.UpdateTime | static/widgets/swiss/widget.js:35-40 | the stored hour is the current hour modulo 12, always 0..11, with the minute and second as read |
| SwissClock.SwissClockWidget.RenderClock | static/widgets/swiss/widget.js:157-161 | the hands for the stored time: hour angle in [0, 360), minute and second angles 6 times the values |
| SwissClock.SwissClockWidget.RenderMarkers | static/widgets/swiss/widget.js:184-199 | exactly 60 markers, marker `i` at 6i degrees and an hour marker exactly when 5 divides `i`, so that exactly 12 are hour markers |

## Left out

- `waitForCustomElement`, with its timers, `MutationObserver` and `DOMContentLoaded` hook, is left out because its point is timing. The older manager gets its outcome as a defined or not-defined input. In the newer manager the outcome never reaches the state.
- Script-tag injection and custom-element registration are left out: they are browser side effects.
- `document.createElement` is taken to succeed for every tag name. For a type whose tag is not a valid element name (such as `3d-widget`) it throws. `createWidgetInstance` then mounts nothing. Inside `loadAllWidgets` the throw ends the loop: the later records stay unmounted and `[]` is returned. The model mounts every record of an available type instead.
- Keys of the fetched registry other than `widgetTypes` and `widgets` are not kept in the client's copy, so the `PUT` the model sends on removal lacks them.
- Manifests keep only `id`, `name` and `description`; their other keys (a version, an icon) are not modelled, so `GET /api/widget-types/{type}` answers with those three only.
- The DOM (`appendChild`, `remove`, the container, Lit rendering and styles) is left out: the model keeps only the map of mounted elements.
- Concurrency is left out, because the model runs each operation to completion:
  - `Promise.all` in the older `loadAllWidgets` loads all widgets at once; the model loads them in list order, so with duplicate ids the first listed wins where in the browser the first to finish does;
  - `widgets-reload` gets its answers in whatever order they arrive; the model takes list order;
  - interleavings between event handlers are not modelled.
- The older manager's `widget-settings` listener only logs, so it is left out.
- `createNewWidget` in the older manager is left out: it only chains the generation request to `loadWidget`, and both of those are modelled.
- JSON values of an unexpected type are left out: a `widgets` value that is not a list, a non-string id or message, a `null` body. Instance records and listings whose `id` or `type` is missing on the client are left out too.
- Server type entries always have an `id` in the model. An entry without one would raise in `list_widget_types` and `generate_widget`; that case is not modelled.
- `GET /api/widgets` is left out because it returns the file as it is. The root page and the static mounts are left out as routing.
- Reading and writing the registry file, and creating the widget directory and files, are left out as file I/O. The written files are returned as `GeneratedFiles` instead.
- The language-model calls and the prompt text are left out: the model's answers are parameters.
- The timer (`setInterval`) and the date reading are left out: the current hour, minute and second are parameters. `toLocaleDateString` is left out too: its string is a parameter.
- `_startSwissEffect` is left out because its body is empty.
- IEEE floating point is left out: placements and the hour angle use exact real arithmetic.
- RegistryServer.RegistryStore.UpdateWidgetPosition: the position body is any dictionary in the source; here it is a `Position`.
