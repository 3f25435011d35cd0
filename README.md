# obsstudio.js event layer — a Dafny model

obsstudio.js (with its trimmed copy obsstudio.slim.js) wraps the
`window.obsstudio` object that the OBS browser source injects into a page. It
adds an event emitter (`on`, `once`, `off`, `onceOff`, `emit`) and tracks
the current scene, visibility, stream phase and record phase. That state is
readable only after the extension is ready. Host window events
(`obsStreamingStarting`, …, `obsSceneChanged`) and the host's
`getCurrentScene` reply update the state and emit canonical events
(`ready`, `sceneChange`, `visibilityChange`, `streamState`, `recordState`).
In an ordinary browser, `processHash` reads commands such as
`#event=init&scene=Main&width=1280&height=720` from the address fragment
instead. obsabstraction.js is a stand-in `obsstudio` object for pages that
run without the host. Its `parseHash` and `processHash` turn fragment
commands (`#obsevent=obsSceneChanged&name=…`) into the host's window events,
and it seeds its stored scene at start-up.

The modules:

- `Text` holds ASCII lower-casing, digit strings and splitting on a separator.
- `Fragment` holds the tokenising regular expression both files share.
- `Registry` holds the meaning of each listener-list update, as values.
- `StudioHash` holds the decisions of obsstudio.js `processHash`.
- `Studio` holds the class `Obs` and makes those updates in place over its fields.
- `Abstraction` holds obsabstraction.js: `parseHash` as a loop proved against a fold, the command switch, scene validation, and the class `ObsAbstraction` with `getCurrentScene`, `processHash` and start-up.

Lines 1-333 of obsstudio.js appear in obsstudio.slim.js 22 lines later. The
host-signal part (obsstudio.js 352-442) appears 19 lines later. The table
cites obsstudio.js only. The listener, accessor and host-signal rows of `Studio.Obs` hold for obsstudio.slim.js at the shifted lines (for example `Studio.Obs.Emit` models obsstudio.slim.js:212-282). The trimmed copy has no `processHash`, so `Studio.Obs.ProcessHash` and module `StudioHash` model obsstudio.js alone, and its host part runs without the `if (window.obsstudio)` test.

Inputs the code takes from its environment are parameters of the model:

- `decode` stands for `decodeURIComponent`.
- `clientWidth` and `clientHeight` stand for `document.body`'s size.
- A boolean says whether `isCallable` accepts the page's `obsstudio.onSceneChanged` or the `getCurrentScene` argument.
- A function is its identity, a natural number.

`emit` returns the ordered list of calls it schedules, each callback with its payload.

Where the code reads differently from a plain key/value reading of fragments, the model follows the code:

- A key without `=` has the value `decodeURIComponent(undefined)`, which is the text "undefined".
- obsstudio.js reads the key `event`, not `obsevent`.
- obsstudio.js keeps repeated keys (as arrays, once line 473 is read as intended), and only a repeated key that a command needs makes the command fail. obsabstraction.js drops the whole fragment on any repeated key.
- `init` after ready is treated as `scenechange`, and `scenechange` before ready as `init`. Neither is refused.
- After ready, a `visibilitychange` that would change the visibility throws a `ReferenceError` (line 553), and so does any other event that is not `init`, `scenechange`, `visibilitychange` or `streamstate` (`recordstate`, but also an unknown name such as `foo`), because each of those reaches `else if (recordstate)` (line 563). In obsstudio.js itself the visibility path cannot run: `visible` is assigned only by the host callback (lines 371-376), which is installed only when `window.obsstudio` exists, and `processHash` only when it does not, so at line 550 `visible` is still `null` and the comparison is false. The model reaches line 553 only when `Studio.Obs.VisibilityCallback` and `Studio.Obs.ProcessHash` are combined on one object, which the code never does.
- The recording signals emit the stream phase (lines 399-411).

## Model

| member | source | states |
|---|---|---|
| Text.LowerIdempotent | obsstudio.js:482 | lower-casing a lower-cased name changes nothing, so a command matches in any casing |
| Text.NatDigitsValue | obsabstraction.js:125-136 | every decimal numeral passes `/^\d+$/` and `parseInt(·, 10)` reads back the number written |
| Fragment.MatchOfSegment | obsstudio.js:453 | a `&`-segment is skipped exactly when it is empty or starts with `=`; otherwise its key is non-empty, free of `=`, and key and value rebuild the segment |
| Fragment.MatchOfRender | obsstudio.js:453 | a well-formed key/value pair written as `k=v` (or `k`) is matched back as the same pair |
| Fragment.MatchesWellFormed | obsabstraction.js:18 | every match of any fragment has a non-empty key without `&` or `=` and a value without `&` |
| Fragment.MatchesOfFragment | obsstudio.js:453-465 | joining well-formed pairs with `&` and tokenising the text yields exactly those pairs in order |
| Fragment.FragmentOfMatches | obsabstraction.js:18-31 | when no segment is skipped, the matches written back out and joined reproduce the fragment |
| Registry.CheckArgs | obsstudio.js:60-69 | the argument checks pass exactly for a non-empty string name, a function and an undefined-or-boolean `once`; each error is given exactly when its own check is the first to fail |
| Registry.RemoveFirstAt | obsstudio.js:129-137 | `off` splices out exactly the first record equal in callback and `once`, keeping the rest in order |
| Registry.RemoveFirstAbsent | obsstudio.js:129-137 | removing a record that is not in the list leaves it unchanged |
| Registry.RemoveFirstMultiset | obsstudio.js:129-137 | one removal takes out exactly one occurrence when there is one, and the length drops by one exactly then |
| Registry.PersistentAppend | obsstudio.js:204-218 | the records that survive an emission keep their relative order |
| Registry.PersistentMembers | obsstudio.js:213-218 | after an emission a record remains exactly when it was registered and is not `once` |
| Registry.PersistentIdempotent | obsstudio.js:204-225 | a second emission with no registration in between removes nothing more |
| Registry.PersistentOfOnce | obsstudio.js:72-83 | a list of `once` records is used up by one emission |
| Registry.WithAddedLists | obsstudio.js:85-95 | `on` appends the record last to its event's list and leaves every other list alone |
| Registry.WithRemovedLists | obsstudio.js:125-149 | `off` changes only its event's list, removes one matching record at most, and never leaves an empty list |
| Registry.AfterEmitLists | obsstudio.js:201-228 | `emit` changes only its event's list, which keeps its non-`once` records; no empty list is left and no event name is added |
| Registry.OffUndoesOn | obsstudio.js:85-95 | `off` with the same callback and `once` undoes an `on` whose record was not already there |
| Registry.OffAbsentEvent | obsstudio.js:146-149 | `off` for an event with no list leaves the registry as it was |
| Registry.OffUnregistered | obsstudio.js:125-144 | `off` for a record that is not registered leaves the registry as it was |
| Registry.AfterEmitReady | obsstudio.js:72-83 | once `ready` has been emitted no `ready` list remains, so no record is called by a second `ready` emission |
| StudioHash.PhaseTables | obsstudio.js:24-46 | `STATEBYINDEX` accepts exactly the four keys "0".."3", and each key is the decimal text of its `STATE` number |
| StudioHash.StateNamesDistinct | obsstudio.js:36-46 | distinct phases have distinct names and distinct numbers, so comparing stored values detects every phase change |
| StudioHash.DecodedPairs | obsstudio.js:465-467 | the decoding keeps one pair per match |
| StudioHash.DecodedPairsAt | obsstudio.js:465-467 | each pair is its match's decoded name and decoded value, in match order, the value decoded from "undefined" when the match has no `=` |
| StudioHash.CollectValues | obsstudio.js:465-475 | a key is in `params` exactly when it occurs; once, it holds its string, and more often, the array of all its values in order |
| StudioHash.CollectParams | obsstudio.js:465-475 | the loop builds exactly the intended `params` of those pairs |
| StudioHash.SceneOfRoundTrip | obsstudio.js:499-529 | a scene written as `scene=N&width=W&height=H` with numeral sizes is read back as that scene, whatever the page's size |
| StudioHash.SceneOfMissingHeight | obsstudio.js:512-519 | a missing height takes the page height, and giving a numeric height instead changes the height and nothing else: the width is unaffected |
| StudioHash.SceneOfMissingWidth | obsstudio.js:503-510 | a missing width takes the page width, and giving a numeric width instead changes the width and nothing else |
| StudioHash.RouteGate | obsstudio.js:482-493 | before ready only `init` and `scenechange` pass, both as `init`; after ready everything passes and nothing is `init` |
| StudioHash.DecideWithoutEvent | obsstudio.js:477-480 | with no non-empty string `event` the call has no effect |
| StudioHash.DecideGate | obsstudio.js:482-529 | before ready the only effect is seeding; after ready there is never a second seed |
| StudioHash.DecideSceneEvent | obsstudio.js:482-529 | a valid scene command seeds before ready and changes the scene after it, under either name |
| StudioHash.DuplicateSceneIgnored | obsstudio.js:468-474 | with repeated keys collected as arrays, a fragment giving `scene` twice changes no scene |
| StudioHash.DuplicateSceneAsWritten | obsstudio.js:473 | as written, `event=init&scene=Main&scene=Other` collects `scene` "Main" (the second value lands under the key "name"), the `init` branch is taken and, with line 515 as written too, the scene Main is seeded at the page height by NaN; the intended collection skips the fragment |
| StudioHash.MissingHeightAsWritten | obsstudio.js:514-516 | as written, a given width 1280 with no height yields width = page height and height NaN; as intended it yields 1280 by the page height |
| StudioHash.InitParams | obsstudio.js:465-475 | the decoded pairs of `event=init&scene=Main&width=1280&height=720` collect into four single-string parameters |
| StudioHash.InitSeeds | obsstudio.js:482-529 | those decoded pairs seed the scene Main at 1280 by 720 before ready, and change to it after ready |
| StudioHash.InitHashMatches | obsstudio.js:453-465 | the expression matches the fragment text `event=init&scene=Main&width=1280&height=720` as its four `name=value` segments, in order |
| StudioHash.InitDecoded | obsstudio.js:466-467 | when `decodeURIComponent` leaves the eight words alone, those matches decode to the four pairs |
| StudioHash.InitHashPairs | obsstudio.js:451-467 | the fragment text itself yields those four decoded pairs |
| StudioHash.InitHashSeeds | obsstudio.js:451-529 | from the fragment text, `processHash` seeds the scene Main at 1280 by 720 before ready and changes to it after ready |
| Studio.SignalPhasesCover | obsstudio.js:381-411 | the streaming signals and the recording signals each reach every one of the four phases |
| Studio.FireStep | obsstudio.js:204-221 | one turn of the loop looks at the next original record and extends the surviving prefix by it exactly when it is not `once` |
| Studio.Fire | obsstudio.js:204-228 | the emit loop schedules every record's callback in order and keeps exactly the records that are not `once` |
| Studio.AdoptedHandlerNeverCalled | obsstudio.js:354-356 | as written, the adopted handler goes under `visbilityChange`, remains there, and changes nothing a `visibilityChange` emission calls |
| Studio.AdoptedHandlerCalledLast | obsstudio.js:354-356 | registered under `visibilityChange` as intended, the handler is the last call of the next emission |
| Studio.Obs.constructor | obsstudio.js:9-15 | no listeners, no scene, visibility and phases `null`, not ready |
| Studio.Obs.On | obsstudio.js:55-100 | bad arguments throw the first failing check's error and change nothing; `ready` after readiness schedules the callback without registering; otherwise one record is appended, forced to `once` for `ready` |
| Studio.Obs.Once | obsstudio.js:162-168 | `on` with `once` true |
| Studio.Obs.Off | obsstudio.js:109-154 | bad arguments throw and change nothing; otherwise the registry becomes `WithRemoved` and keeps its invariant |
| Studio.Obs.OnceOff | obsstudio.js:176-182 | `off` with `once` true |
| Studio.Obs.Emit | obsstudio.js:190-260 | a bad name throws; otherwise the calls are the event's callbacks in registration order with the payload, the `once` records go, and after `ready` no `ready` list remains |
| Studio.Obs.CurrentScene | obsstudio.js:267-276 | answers the stored scene exactly when ready, and the not-ready error otherwise |
| Studio.Obs.IsVisible | obsstudio.js:282-291 | answers the stored visibility exactly when ready |
| Studio.Obs.StreamState | obsstudio.js:297-306 | answers the stored stream phase exactly when ready |
| Studio.Obs.RecordState | obsstudio.js:312-321 | answers the stored record phase exactly when ready |
| Studio.Obs.IsReady | obsstudio.js:327-333 | ungated, and true exactly when the gated accessors answer |
| Studio.Obs.AdoptVisibilityHandlerAsWritten | obsstudio.js:354-356 | a function defined before load is registered under `visbilityChange` |
| Studio.Obs.AssignOnVisibilityChange | obsstudio.js:366-370 | assigning a function registers it as a non-`once` `visibilityChange` listener; anything else changes nothing |
| Studio.Obs.VisibilityCallback | obsstudio.js:371-376 | stores the visibility and emits `visibilityChange` with it |
| Studio.Obs.HandleSignal | obsstudio.js:381-429 | a streaming signal stores its `STATE` number and emits it; a recording signal stores its number but emits the stream value; a scene signal links the old scene into the new one and emits `sceneChange` once ready, else `ready` |
| Studio.Obs.CurrentSceneReply | obsstudio.js:431-442 | the first reply seeds the scene, opens the gate and emits `ready` once; later replies change nothing |
| Studio.Obs.ProcessHash | obsstudio.js:451-575 | the state change and emission follow the fragment's decision, with no effect for skips; seeding opens the gate; a scene change carries the previous scene; `streamstate` emits only on a change of name; a visibility-changing `visibilitychange`, and after ready any event other than `init`, `scenechange`, `visibilitychange` and `streamstate`, end in a `ReferenceError`; readiness never closes |
| Abstraction.StoredSpec | obsabstraction.js:31-41 | the pair loop succeeds exactly when the lower-cased decoded names are distinct, and then holds each name with its decoded value and nothing else |
| Abstraction.StoredKeys | obsabstraction.js:31-41 | a successful pair loop holds exactly the names of the matches |
| Abstraction.StoredValues | obsabstraction.js:31-41 | a successful pair loop holds each match's decoded value under its lower-cased decoded name |
| Abstraction.StoredDistinct | obsabstraction.js:34-37 | the pair loop succeeds exactly when no two names coincide |
| Abstraction.DistinctKeysPrefix | obsabstraction.js:34-37 | distinct names stay distinct without the last pair, whose name differs from all earlier ones |
| Abstraction.DistinctKeysExtend | obsabstraction.js:34-40 | a pair with a new name keeps the names distinct |
| Abstraction.StoredGivesUp | obsabstraction.js:34-37 | a repeated name anywhere makes the whole parse give up |
| Abstraction.ParsedHash | obsabstraction.js:43-49 | a parsed fragment always has a non-empty `obsevent` |
| Abstraction.ParsedHashSpec | obsabstraction.js:16-50 | `parseHash` yields a dictionary exactly when the fragment is non-empty, its names are distinct and some pair gives `obsevent` a non-empty value; the dictionary holds every pair |
| Abstraction.ParseHash | obsabstraction.js:16-50 | the loop with its early return computes exactly `ParsedHash` |
| Abstraction.CommandOfCaseInsensitive | obsabstraction.js:67 | a command selects the same case in any casing |
| Abstraction.SwitchRaise | obsabstraction.js:67-94 | a lower-cased command raises an event exactly when it is that event's key |
| Abstraction.CommandOfRaise | obsabstraction.js:67-94 | a command raises an event exactly when, lower-cased, it is that event's case label |
| Abstraction.SceneOfParamsRoundTrip | obsabstraction.js:123-136 | a scene written as a name and two numerals is read back as the same scene |
| Abstraction.StartupAgreesWithProcessHash | obsabstraction.js:169-194 | start-up stores a scene exactly when `processHash` on the same fragment would change to it, warns exactly when that would be invalid, and defers every other parsed command |
| Abstraction.ObsAbstraction.constructor | obsabstraction.js:10-14 | the scene starts as "default", 1024 by 720 |
| Abstraction.ObsAbstraction.GetCurrentScene | obsabstraction.js:157-165 | a callable argument receives the stored scene; otherwise nothing happens |
| Abstraction.ObsAbstraction.ProcessHash | obsabstraction.js:57-150 | the action is that of the parsed fragment; the stored scene changes only for a valid scene command, and then to that scene |
| Abstraction.ObsAbstraction.Startup | obsabstraction.js:169-194 | the outcome is that of the parsed fragment; the stored scene changes only when seeded, and then to that scene |

## Left out

- Timers: `emit` schedules its callbacks one `setTimeout` after another, and a late `on('ready')` and obsabstraction.js start-up also schedule work. The model returns what is scheduled (the ordered calls, `Deferred`, `ProcessLater`) and does not run it. So it does not capture callbacks that re-enter the emitter.
- Payload copies: `emit`'s `JSON.parse(JSON.stringify(data))` copy, and `currentScene()`'s copy, hand out values. The model's payloads are values already.
- The host's `getCurrentScene` reply arrives as JSON text that is parsed (line 434). The model receives the parsed scene.
- `decodeURIComponent` is any total function. The `URIError` it throws on a malformed escape is not modelled.
- Lower-casing is ASCII only. Non-ASCII case mappings of `toLowerCase` are not modelled.
- StudioHash.NumberOf: `Number`/`isNaN` are modelled for digit strings and the empty string only. Whitespace, signs, decimals, exponents, hexadecimal and `Infinity` are treated as not numbers. So `width=1e3` is refused here and accepted by the code. A digit string is read exactly here, while `Number` rounds numerals above 2^53 (`width=9007199254740993` gives 9007199254740992) and makes numerals of about 309 or more digits `Infinity`, which `isNaN` accepts. The model's numbers are exact and finite.
- StudioHash.StateTruthy: for the same reason, strings such as `0.0` or `-0` count as non-empty text, not as the number 0.
- Abstraction.SceneOfParams: the values `parseInt` produces above 2^53 lose precision in the source. The model's numbers are exact.
- Parameter names that are `Object.prototype` members, such as `__proto__`, behave specially on plain objects. The models use maps.
- `Array.isArray(eventHandlers[evt])` is always true in the model, because only `on` writes there.
- `isCallable` is a given boolean. Its function-detection heuristics are not modelled.
- Property descriptors (`writable`, `enumerable`), `extensionVersion`, `pluginVersion`, `STATE`/`STATEBYINDEX` freezing and the read-only `getCurrentScene` re-definition are not modelled: they describe properties, not behaviour.
- Which parts run is the caller's choice:
  - obsstudio.js installs the host listeners only when `window.obsstudio` exists, and `processHash` only when it does not;
  - obsabstraction.js returns at once when `window.obsstudio` exists (line 4);
  - the `hashchange` wiring (obsstudio.js:575, obsabstraction.js:167) calls `ProcessHash` at load and on every change.
- Studio.Obs.ProcessHash: follows obsstudio.js:473 and obsstudio.js:515 as corrected in the Findings (`Collect` and `SceneOf`), not as written. So on `#event=init&scene=Main` the model stores Main at `clientWidth` by `clientHeight`, while the code as written stores Main at `clientHeight` by NaN, and a repeated key is an array rather than a first string kept under the key "name". The as-written behaviour is stated by `StudioHash.CollectAsWritten` and `StudioHash.SceneOfAsWritten`.
- The window events that obsabstraction.js dispatches reach obsstudio.js's listeners through the browser. The two models are not connected.
- The code after obsabstraction.js:103/115 and obsstudio.js:553/563 is not modelled past the point where it throws `ReferenceError`. The model records the throw.

## Findings

| source | as written | input that shows it | evidently intended | confidence | as-written member | corrected member |
|---|---|---|---|---|---|---|
| obsstudio.js:473 | a second value for a key is stored under the key "name" (`params.name`), so the key keeps its first string | `#event=init&scene=Main&scene=Other` seeds scene "Main" | `params[name] = [first, value]`, so a repeated key becomes an array and a repeated `scene` is refused | high; not executed | StudioHash.DuplicateSceneAsWritten | StudioHash.DuplicateSceneIgnored |
| obsstudio.js:515 | a missing or empty height assigns the page height to `params.width` | `#event=init&scene=Main&width=1280` gives width = page height and height NaN | `params.height = document.body.clientHeight` | high; not executed | StudioHash.MissingHeightAsWritten | StudioHash.SceneOfMissingHeight |
| obsstudio.js:355 | a handler defined before load is registered under `visbilityChange`, which is never emitted | a page setting `obsstudio.onVisibilityChange` before the extension loads is never called on visibility changes | registration under `visibilityChange`, as the setter at line 368 does | medium; not executed | Studio.AdoptedHandlerNeverCalled | Studio.AdoptedHandlerCalledLast |
