/**
 * The extension object of obsstudio.js and obsstudio.slim.js: the listener
 * registry (`on`, `once`, `off`, `onceOff`, `emit`), the tracked host state
 * behind the readiness gate (`currentScene`, `isVisible`, `streamState`,
 * `recordState`, `isReady`), the host-signal listeners that overwrite that
 * state, and the browser fallback `processHash`.
 */
module Studio {
  import opened Wrappers
  import opened Text
  import opened Registry
  import opened StudioHash
  import Fragment

  /** `currentScene`: the initial `{}`, or a descriptor that may link the scene before it. */
  datatype Scene = EmptyScene | Described(name: string, width: int, height: int, previous: Option<Scene>)

  /** A scene descriptor as the host delivers it. */
  datatype HostScene = HostScene(name: string, width: int, height: int)

  /** `streamState` / `recordState`: `null` (`NoPhase`), an `obs.STATE` number or an `obs.STATEBYINDEX` name. */
  datatype PhaseValue = NoPhase | Code(p: Phase) | Name(p: Phase)

  /** The `data` argument of an emission. */
  datatype Payload = NoData | PhaseData(v: PhaseValue) | VisibleData(visible: bool) | SceneData(scene: Scene)

  /** One listener call the emission schedules, with the payload it receives. */
  datatype Call = Call(callback: CallbackId, data: Payload)

  /** An emission of the object itself: the event name, its payload and the calls scheduled. */
  datatype Emission = Emission(name: string, data: Payload, calls: seq<Call>)

  /** What `on` did: threw, added a record, or (for `ready` after readiness) scheduled the callback. */
  datatype OnOutcome = OnThrew(error: ApiError) | Added | Deferred(callback: CallbackId)

  /** An accessor's answer: the "not ready" `Error`, or the stored value. */
  datatype Gated<T> = NotReady | Value(v: T)

  /** The window events the host fires and the object listens for. */
  datatype HostSignal =
    | ObsStreamingStarting | ObsStreamingStarted | ObsStreamingStopping | ObsStreamingStopped
    | ObsRecordingStarting | ObsRecordingStarted | ObsRecordingStopping | ObsRecordingStopped
    | ObsSceneChanged(detail: HostScene)

  predicate IsStreamingSignal(s: HostSignal) {
    s.ObsStreamingStarting? || s.ObsStreamingStarted? || s.ObsStreamingStopping? || s.ObsStreamingStopped?
  }

  /** The phase a streaming or recording signal moves to. */
  function SignalPhase(s: HostSignal): Phase
    requires !s.ObsSceneChanged?
  {
    match s
    case ObsStreamingStarting => Starting
    case ObsStreamingStarted => Started
    case ObsStreamingStopping => Stopping
    case ObsStreamingStopped => Inactive
    case ObsRecordingStarting => Starting
    case ObsRecordingStarted => Started
    case ObsRecordingStopping => Stopping
    case ObsRecordingStopped => Inactive
  }

  /** The four signals of each subsystem reach the four phases, each exactly once. */
  lemma SignalPhasesCover(p: Phase)
    ensures exists s: HostSignal :: IsStreamingSignal(s) && SignalPhase(s) == p
    ensures exists s: HostSignal :: !s.ObsSceneChanged? && !IsStreamingSignal(s) && SignalPhase(s) == p
  {
    match p
    case Inactive => assert SignalPhase(ObsStreamingStopped) == p && SignalPhase(ObsRecordingStopped) == p;
    case Starting => assert SignalPhase(ObsStreamingStarting) == p && SignalPhase(ObsRecordingStarting) == p;
    case Started => assert SignalPhase(ObsStreamingStarted) == p && SignalPhase(ObsRecordingStarted) == p;
    case Stopping => assert SignalPhase(ObsStreamingStopping) == p && SignalPhase(ObsRecordingStopping) == p;
  }

  /** What one `processHash` call did. */
  datatype HashOutcome = NoEffect | Emitted(emission: Emission) | ThrewReferenceError(identifier: string)

  /** The calls an emission of `data` schedules for the list `l`, in registration order. */
  function CallsOf(l: seq<Registration>, data: Payload): seq<Call> {
    seq(|l|, i requires 0 <= i < |l| => Call(l[i].callback, data))
  }

  /**
   * One turn of the `emit` loop: the record at the cursor is the next
   * record of the original list, and splicing it out (when `once`) or
   * stepping past it (otherwise) extends the surviving prefix by one record.
   */
  lemma {:induction false} FireStep(l: seq<Registration>, k: nat, kept: seq<Registration>, i: nat)
    requires k < |l| && kept == Persistent(l[..k]) + l[k..] && i == |Persistent(l[..k])|
    ensures i < |kept| && kept[i] == l[k]
    ensures FiresOnce(l[k]) ==>
      kept[..i] + kept[i + 1..] == Persistent(l[..k + 1]) + l[k + 1..] && i == |Persistent(l[..k + 1])|
    ensures !FiresOnce(l[k]) ==>
      kept == Persistent(l[..k + 1]) + l[k + 1..] && i + 1 == |Persistent(l[..k + 1])|
  {
    PersistentAppend(l[..k], [l[k]]);
    assert l[..k + 1] == l[..k] + [l[k]];
    assert l[k..] == [l[k]] + l[k + 1..];
    assert kept[..i] == Persistent(l[..k]);
    assert kept[i + 1..] == l[k + 1..];
    if FiresOnce(l[k]) {
      assert Persistent([l[k]]) == [];
    } else {
      assert Persistent([l[k]]) == [l[k]];
    }
  }

  /**
   * The loop of `emit` over the live list `l`: every record's callback is
   * scheduled in order, and each `once` record is spliced out as it fires,
   * leaving exactly the records that persist.
   */
  method Fire(l: seq<Registration>, data: Payload) returns (kept: seq<Registration>, calls: seq<Call>)
    ensures kept == Persistent(l)
    ensures calls == CallsOf(l, data)
  {
    kept := l;
    calls := [];
    var i := 0;
    ghost var k := 0;
    while i < |kept|
      invariant 0 <= k <= |l|
      invariant kept == Persistent(l[..k]) + l[k..]
      invariant i == |Persistent(l[..k])|
      invariant |kept| == i + (|l| - k)
      invariant |calls| == k && forall j :: 0 <= j < k ==> calls[j] == Call(l[j].callback, data)
      decreases |l| - k
    {
      FireStep(l, k, kept, i);
      calls := calls + [Call(kept[i].callback, data)];
      if FiresOnce(kept[i]) {
        kept := kept[..i] + kept[i + 1..];
      } else {
        i := i + 1;
      }
      k := k + 1;
    }
    assert k == |l|;
    assert l[..k] == l;
  }

  /**
   * As written, adopting the handler at set-up leaves every `visibilityChange`
   * emission calling exactly what it called before: the record sits under a
   * name of its own.
   */
  lemma AdoptedHandlerNeverCalled(h: Handlers, r: Registration, d: Payload)
    ensures CallsOf(ListOf(WithAdded(h, "visbilityChange", r), "visibilityChange"), d)
         == CallsOf(ListOf(h, "visibilityChange"), d)
    ensures r in ListOf(WithAdded(h, "visbilityChange", r), "visbilityChange")
  {
    WithAddedLists(h, "visbilityChange", r);
  }

  /** Registered as intended, the handler is the last call of the next `visibilityChange` emission. */
  lemma AdoptedHandlerCalledLast(h: Handlers, r: Registration, d: Payload)
    ensures var calls := CallsOf(ListOf(WithAdded(h, "visibilityChange", r), "visibilityChange"), d);
      |calls| > 0 && calls[|calls| - 1] == Call(r.callback, d)
  {
    WithAddedLists(h, "visibilityChange", r);
  }

  class Obs {
    var handlers: Handlers
    var currentScene: Scene
    var visible: Option<bool>
    var streamState: PhaseValue
    var recordState: PhaseValue
    var ready: bool

    /**
     * No event keeps an empty list, every `ready` record is a `once` record,
     * and once ready there are no `ready` records at all.
     */
    ghost predicate Valid()
      reads this
    {
      NoEmptyLists(handlers) && ReadyListOnce(handlers) && (ready ==> "ready" !in handlers)
    }

    /** The module-level variables of lines 10-15. */
    constructor ()
      ensures Valid()
      ensures handlers == map[] && currentScene == EmptyScene && visible == None
      ensures streamState == NoPhase && recordState == NoPhase && !ready
    {
      handlers := map[];
      currentScene := EmptyScene;
      visible := None;
      streamState := NoPhase;
      recordState := NoPhase;
      ready := false;
    }

    // -------------------------------------------------------------------------
    // The registry

    /** `obs.on(evt, fnc, once)`. */
    method On(evt: Arg, fnc: Arg, once: Arg) returns (r: OnOutcome)
      requires Valid()
      modifies this`handlers
      ensures Valid()
      ensures CheckArgs(evt, fnc, once).Some? ==>
        r == OnThrew(CheckArgs(evt, fnc, once).value) && handlers == old(handlers)
      ensures CheckArgs(evt, fnc, once).None? && evt.s == "ready" && ready ==>
        r == Deferred(fnc.id) && handlers == old(handlers)
      ensures CheckArgs(evt, fnc, once).None? && !(evt.s == "ready" && ready) ==>
        && r == Added
        && handlers == WithAdded(old(handlers), evt.s,
             Registration(fnc.id, if evt.s == "ready" then Flag(true) else OnceOf(once)))
    {
      var err := CheckArgs(evt, fnc, once);
      if err.Some? {
        return OnThrew(err.value);
      }
      var o := OnceOf(once);
      if evt.s == "ready" {
        if ready {
          return Deferred(fnc.id);
        }
        o := Flag(true);
      }
      if evt.s !in handlers {
        handlers := handlers[evt.s := []];
      }
      handlers := handlers[evt.s := handlers[evt.s] + [Registration(fnc.id, o)]];
      r := Added;
    }

    /** `obs.once(evt, fnc)`: `on` with `once` true. */
    method Once(evt: Arg, fnc: Arg) returns (r: OnOutcome)
      requires Valid()
      modifies this`handlers
      ensures Valid()
      ensures CheckArgs(evt, fnc, Bool(true)).Some? ==>
        r == OnThrew(CheckArgs(evt, fnc, Bool(true)).value) && handlers == old(handlers)
      ensures CheckArgs(evt, fnc, Bool(true)).None? && evt.s == "ready" && ready ==>
        r == Deferred(fnc.id) && handlers == old(handlers)
      ensures CheckArgs(evt, fnc, Bool(true)).None? && !(evt.s == "ready" && ready) ==>
        r == Added && handlers == WithAdded(old(handlers), evt.s, Registration(fnc.id, Flag(true)))
    {
      r := On(evt, fnc, Bool(true));
    }

    /** `obs.off(evt, fnc, once)`: remove the first record with this callback and this exact `once`. */
    method Off(evt: Arg, fnc: Arg, once: Arg) returns (r: Option<ApiError>)
      requires Valid()
      modifies this`handlers
      ensures Valid()
      ensures r == CheckArgs(evt, fnc, once)
      ensures r.Some? ==> handlers == old(handlers)
      ensures r.None? ==> handlers == WithRemoved(old(handlers), evt.s, Registration(fnc.id, OnceOf(once)))
    {
      r := CheckArgs(evt, fnc, once);
      if r.Some? {
        return;
      }
      var name, reg := evt.s, Registration(fnc.id, OnceOf(once));
      if name in handlers && handlers[name] != [] {
        ghost var orig := handlers[name];
        ghost var removed := false;
        var list := handlers[name];
        var i := 0;
        while i < |list|
          invariant 0 <= i <= |list| == |orig|
          invariant list == orig
          invariant forall j :: 0 <= j < i ==> list[j] != reg
        {
          if list[i] == reg {
            RemoveFirstAt(list, reg, i);
            list := list[..i] + list[i + 1..];
            removed := true;
            break;
          }
          i := i + 1;
        }
        if !removed {
          RemoveFirstAbsent(orig, reg);
        }
        assert list == RemoveFirst(orig, reg);
        if |list| == 0 {
          handlers := handlers - {name};
        } else {
          handlers := handlers[name := list];
        }
        WithRemovedLists(old(handlers), name, reg);
      } else {
        handlers := handlers - {name};
      }
    }

    /** `obs.onceOff(evt, fnc)`: `off` with `once` true. */
    method OnceOff(evt: Arg, fnc: Arg) returns (r: Option<ApiError>)
      requires Valid()
      modifies this`handlers
      ensures Valid()
      ensures r == CheckArgs(evt, fnc, Bool(true))
      ensures r.Some? ==> handlers == old(handlers)
      ensures r.None? ==> handlers == WithRemoved(old(handlers), evt.s, Registration(fnc.id, Flag(true)))
    {
      r := Off(evt, fnc, Bool(true));
    }

    /**
     * `obs.emit(evt, data)`: schedule every registered callback in order and
     * splice the `once` records out of the live list, deleting it when empty.
     */
    method Emit(evt: Arg, data: Payload) returns (r: Result<seq<Call>, ApiError>)
      requires NoEmptyLists(handlers) && ReadyListOnce(handlers)
      modifies this`handlers
      ensures NoEmptyLists(handlers) && ReadyListOnce(handlers)
      ensures handlers.Keys <= old(handlers).Keys
      ensures !ValidName(evt) ==> r == Failure(InvalidEventName) && handlers == old(handlers)
      ensures ValidName(evt) ==>
        && r == Success(CallsOf(ListOf(old(handlers), evt.s), data))
        && handlers == AfterEmit(old(handlers), evt.s)
      ensures evt == Str("ready") ==> "ready" !in handlers
    {
      if !ValidName(evt) {
        return Failure(InvalidEventName);
      }
      var name := evt.s;
      AfterEmitLists(handlers, name);
      if name == "ready" {
        AfterEmitReady(handlers);
      }
      if name in handlers && handlers[name] != [] {
        var list, calls := Fire(handlers[name], data);
        if |list| == 0 {
          handlers := handlers - {name};
        } else {
          handlers := handlers[name := list];
        }
        r := Success(calls);
      } else {
        assert CallsOf(ListOf(handlers, name), data) == [];
        handlers := handlers - {name};
        r := Success([]);
      }
    }

    // -------------------------------------------------------------------------
    // The gated accessors

    /** `obs.currentScene()`. */
    function CurrentScene(): (r: Gated<Scene>)
      reads this
      ensures r.Value? <==> ready
      ensures r.Value? ==> r.v == currentScene
    {
      if ready then Value(currentScene) else NotReady
    }

    /** `obs.isVisible()`. */
    function IsVisible(): (r: Gated<Option<bool>>)
      reads this
      ensures r.Value? <==> ready
      ensures r.Value? ==> r.v == visible
    {
      if ready then Value(visible) else NotReady
    }

    /** `obs.streamState()`. */
    function StreamState(): (r: Gated<PhaseValue>)
      reads this
      ensures r.Value? <==> ready
      ensures r.Value? ==> r.v == streamState
    {
      if ready then Value(streamState) else NotReady
    }

    /** `obs.recordState()`. */
    function RecordState(): (r: Gated<PhaseValue>)
      reads this
      ensures r.Value? <==> ready
      ensures r.Value? ==> r.v == recordState
    {
      if ready then Value(recordState) else NotReady
    }

    /** `obs.isReady()`: never gated; it is true exactly when the gated accessors answer. */
    function IsReady(): (r: bool)
      reads this
      ensures r <==> CurrentScene().Value?
      ensures r <==> IsVisible().Value? && StreamState().Value? && RecordState().Value?
    {
      ready
    }

    // -------------------------------------------------------------------------
    // Host signals

    /**
     * Assigning `obs.onVisibilityChange = callback`: a function is registered
     * as a `visibilityChange` listener. The same registration is what the
     * set-up evidently intends for a function defined before the extension
     * loaded (see `AdoptVisibilityHandlerAsWritten`).
     */
    method AssignOnVisibilityChange(callback: Arg)
      requires Valid()
      modifies this`handlers
      ensures Valid()
      ensures callback.Fn? ==>
        handlers == WithAdded(old(handlers), "visibilityChange", Registration(callback.id, Unset))
      ensures !callback.Fn? ==> handlers == old(handlers)
    {
      if callback.Fn? {
        var _ := On(Str("visibilityChange"), callback, Undefined);
      }
    }

    /**
     * Set-up under the host when the page defined `onVisibilityChange`
     * before the extension loaded, as written: the function is registered
     * under the misspelled name `visbilityChange`, which nothing emits.
     */
    method AdoptVisibilityHandlerAsWritten(existing: Arg)
      requires Valid()
      modifies this`handlers
      ensures Valid()
      ensures existing.Fn? ==>
        handlers == WithAdded(old(handlers), "visbilityChange", Registration(existing.id, Unset))
      ensures !existing.Fn? ==> handlers == old(handlers)
    {
      if existing.Fn? {
        var _ := On(Str("visbilityChange"), existing, Undefined);
      }
    }

    /** The host calling the function `obs.onVisibilityChange` returns. */
    method VisibilityCallback(state: bool) returns (e: Emission)
      requires Valid()
      modifies this`handlers, this`visible
      ensures Valid()
      ensures visible == Some(state)
      ensures e == Emission("visibilityChange", VisibleData(state), CallsOf(ListOf(old(handlers), "visibilityChange"), VisibleData(state)))
      ensures handlers == AfterEmit(old(handlers), "visibilityChange")
    {
      visible := Some(state);
      var calls := Emit(Str("visibilityChange"), VisibleData(visible.value));
      e := Emission("visibilityChange", VisibleData(state), calls.value);
    }

    /**
     * The window-event listeners. A streaming signal stores its phase in
     * `streamState`; a recording signal stores it in `recordState` but
     * emits the value of `streamState`. `obsSceneChanged` links the old
     * scene into the new one and emits `sceneChange` once ready, else
     * `ready` (without setting the flag).
     */
    method HandleSignal(sig: HostSignal) returns (e: Emission)
      requires Valid()
      modifies this`handlers, this`streamState, this`recordState, this`currentScene
      ensures Valid()
      ensures handlers == AfterEmit(old(handlers), e.name)
      ensures e.calls == CallsOf(ListOf(old(handlers), e.name), e.data)
      ensures IsStreamingSignal(sig) ==>
        && streamState == Code(SignalPhase(sig)) && recordState == old(recordState)
        && currentScene == old(currentScene)
        && e.name == "streamState" && e.data == PhaseData(streamState)
      ensures !sig.ObsSceneChanged? && !IsStreamingSignal(sig) ==>
        && recordState == Code(SignalPhase(sig)) && streamState == old(streamState)
        && currentScene == old(currentScene)
        && e.name == "recordState" && e.data == PhaseData(old(streamState))
      ensures sig.ObsSceneChanged? ==>
        && currentScene == Described(sig.detail.name, sig.detail.width, sig.detail.height, Some(old(currentScene)))
        && streamState == old(streamState) && recordState == old(recordState)
        && (ready ==> e.name == "sceneChange" && e.data == SceneData(currentScene))
        && (!ready ==> e.name == "ready" && e.data == NoData)
    {
      var name: string, data: Payload;
      if sig.ObsSceneChanged? {
        var d := sig.detail;
        currentScene := Described(d.name, d.width, d.height, Some(currentScene));
        if ready {
          name, data := "sceneChange", SceneData(currentScene);
        } else {
          name, data := "ready", NoData;
        }
      } else if IsStreamingSignal(sig) {
        streamState := Code(SignalPhase(sig));
        name, data := "streamState", PhaseData(streamState);
      } else {
        recordState := Code(SignalPhase(sig));
        name, data := "recordState", PhaseData(streamState);
      }
      var calls := Emit(Str(name), data);
      e := Emission(name, data, calls.value);
    }

    /**
     * The callback given to the host's `getCurrentScene`: the first reply
     * seeds the scene, opens the gate and emits `ready`; later replies
     * change nothing.
     */
    method CurrentSceneReply(scene: HostScene) returns (e: Option<Emission>)
      requires Valid()
      modifies this`handlers, this`ready, this`currentScene
      ensures Valid()
      ensures ready
      ensures old(ready) ==> e == None && unchanged(this)
      ensures !old(ready) ==>
        && currentScene == Described(scene.name, scene.width, scene.height, None)
        && e == Some(Emission("ready", NoData, CallsOf(ListOf(old(handlers), "ready"), NoData)))
        && handlers == AfterEmit(old(handlers), "ready")
    {
      if !ready {
        ready := true;
        currentScene := Described(scene.name, scene.width, scene.height, None);
        var calls := Emit(Str("ready"), NoData);
        e := Some(Emission("ready", NoData, calls.value));
      } else {
        e := None;
      }
    }

    // -------------------------------------------------------------------------
    // The browser fallback

    /**
     * `processHash` on the fragment `hash`. Percent-decoding is the given
     * `decode`; `clientWidth`/`clientHeight` are the page body's size. The
     * parameters are collected and the scene sizes validated as the code
     * evidently intends (see `StudioHash.Collect` and `StudioHash.SceneOf`).
     */
    method ProcessHash(hash: string, decode: string -> string, clientWidth: nat, clientHeight: nat)
      returns (r: HashOutcome)
      requires Valid()
      modifies this`handlers, this`ready, this`currentScene, this`visible, this`streamState
      ensures Valid()
      ensures old(ready) ==> ready
      ensures
        match DecideHash(hash, decode, old(ready), clientWidth, clientHeight)
        case Skip =>
          r == NoEffect && unchanged(this)
        case Seed(sc) =>
          && ready
          && currentScene == Described(sc.name, sc.width, sc.height, None)
          && r == Emitted(Emission("ready", NoData, CallsOf(ListOf(old(handlers), "ready"), NoData)))
          && handlers == AfterEmit(old(handlers), "ready")
          && visible == old(visible) && streamState == old(streamState)
        case ChangeScene(sc) =>
          && ready
          && currentScene == Described(sc.name, sc.width, sc.height, None)
          && var data := SceneData(Described(sc.name, sc.width, sc.height, Some(old(currentScene))));
          && r == Emitted(Emission("sceneChange", data, CallsOf(ListOf(old(handlers), "sceneChange"), data)))
          && handlers == AfterEmit(old(handlers), "sceneChange")
          && visible == old(visible) && streamState == old(streamState)
        case Visibility(truthy) =>
          && handlers == old(handlers) && ready == old(ready) && currentScene == old(currentScene)
          && streamState == old(streamState)
          && (old(visible) == Some(!truthy) ==> visible == Some(truthy) && r == ThrewReferenceError("visibilityChange"))
          && (old(visible) != Some(!truthy) ==> visible == old(visible) && r == NoEffect)
        case Stream(p) =>
          && ready == old(ready) && currentScene == old(currentScene) && visible == old(visible)
          && (old(streamState) != Name(p) ==>
                && streamState == Name(p)
                && r == Emitted(Emission("streamState", PhaseData(Name(p)),
                                         CallsOf(ListOf(old(handlers), "streamState"), PhaseData(Name(p)))))
                && handlers == AfterEmit(old(handlers), "streamState"))
          && (old(streamState) == Name(p) ==> r == NoEffect && unchanged(this))
        case UndefinedIdentifier =>
          r == ThrewReferenceError("recordstate") && unchanged(this)
    {
      if hash == "" {
        return NoEffect;
      }
      var params := CollectParams(DecodedPairs(Fragment.Matches(hash), decode));
      if !("event" in params && params["event"].Single? && params["event"].s != "") {
        return NoEffect;
      }
      var routed := Route(Lower(params["event"].s), ready);
      if routed.None? {
        return NoEffect;
      }
      var event := routed.value;
      if event == "init" || event == "scenechange" {
        var sc := SceneOf(params, clientWidth, clientHeight);
        if sc.None? {
          return NoEffect;
        }
        var name := "ready";
        var data := NoData;
        if event == "scenechange" {
          name := "sceneChange";
          data := SceneData(Described(sc.value.name, sc.value.width, sc.value.height, Some(currentScene)));
        } else {
          ready := true;
        }
        currentScene := Described(sc.value.name, sc.value.width, sc.value.height, None);
        var calls := Emit(Str(name), data);
        r := Emitted(Emission(name, data, calls.value));
      } else if event == "visibilitychange" {
        if !("state" in params && params["state"].Single?) {
          return NoEffect;
        }
        var truthy := StateTruthy(params["state"].s);
        if visible == Some(!truthy) {
          visible := Some(truthy);
          return ThrewReferenceError("visibilityChange");
        }
        r := NoEffect;
      } else if event == "streamstate" {
        if !("state" in params && params["state"].Single? && PhaseAt(params["state"].s).Some?) {
          return NoEffect;
        }
        var phase := PhaseAt(params["state"].s).value;
        if streamState != Name(phase) {
          streamState := Name(phase);
          var calls := Emit(Str("streamState"), PhaseData(streamState));
          r := Emitted(Emission("streamState", PhaseData(Name(phase)), calls.value));
        } else {
          r := NoEffect;
        }
      } else {
        r := ThrewReferenceError("recordstate");
      }
    }
  }
}
