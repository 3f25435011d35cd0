/**
 * obsabstraction.js: the stand-in `window.obsstudio` object a page gets when
 * the host injected none. It keeps a current scene, answers
 * `getCurrentScene` from it, and turns commands carried in the address
 * fragment into the window events the real host would fire.
 */
module Abstraction {
  import opened Wrappers
  import opened Text
  import Fragment

  /** The dictionary `parseHash` builds: lower-cased decoded names to decoded values. */
  type Params = map<string, string>

  /** A parameter's name as stored: percent-decoded, then lower-cased. */
  function KeyOf(m: Fragment.Match, decode: string -> string): string {
    Lower(decode(m.key))
  }

  /**
   * The loop of `parseHash` over the matches `ms`: each pair is stored in
   * turn, and the whole parse gives up at the first name already stored.
   */
  function Stored(ms: seq<Fragment.Match>, decode: string -> string): Option<Params>
    decreases |ms|
  {
    if ms == [] then Some(map[])
    else
      match Stored(ms[..|ms| - 1], decode)
      case None => None
      case Some(p) =>
        var m := ms[|ms| - 1];
        if KeyOf(m, decode) in p then None
        else Some(p[KeyOf(m, decode) := Fragment.DecodedValue(m, decode)])
  }

  /** No two matches name the same parameter once decoded and lower-cased. */
  predicate DistinctKeys(ms: seq<Fragment.Match>, decode: string -> string) {
    forall i, j :: 0 <= i < j < |ms| ==> KeyOf(ms[i], decode) != KeyOf(ms[j], decode)
  }

  /** A successful fold holds exactly the names of the matches. */
  lemma {:induction false} StoredKeys(ms: seq<Fragment.Match>, decode: string -> string)
    requires Stored(ms, decode).Some?
    ensures forall k :: k in Stored(ms, decode).value <==> exists i :: 0 <= i < |ms| && KeyOf(ms[i], decode) == k
    decreases |ms|
  {
    if ms != [] {
      var n := |ms| - 1;
      var init := ms[..n];
      StoredKeys(init, decode);
      var p := Stored(init, decode).value;
      forall k ensures k in Stored(ms, decode).value <==> exists i :: 0 <= i < |ms| && KeyOf(ms[i], decode) == k {
        if k in p {
          var i :| 0 <= i < n && KeyOf(init[i], decode) == k;
          assert KeyOf(ms[i], decode) == k;
        }
        if exists i :: 0 <= i < |ms| && KeyOf(ms[i], decode) == k {
          var i :| 0 <= i < |ms| && KeyOf(ms[i], decode) == k;
          if i < n {
            assert KeyOf(init[i], decode) == k;
          }
        }
      }
    }
  }

  /** A successful fold holds each match's decoded value under its name. */
  lemma {:induction false} StoredValues(ms: seq<Fragment.Match>, decode: string -> string)
    requires Stored(ms, decode).Some?
    ensures forall i :: 0 <= i < |ms| ==>
      KeyOf(ms[i], decode) in Stored(ms, decode).value &&
      Stored(ms, decode).value[KeyOf(ms[i], decode)] == Fragment.DecodedValue(ms[i], decode)
    decreases |ms|
  {
    if ms != [] {
      var n := |ms| - 1;
      var init := ms[..n];
      StoredValues(init, decode);
      forall i | 0 <= i < n ensures ms[i] == init[i] {
      }
    }
  }

  /** Distinct names stay distinct without the last match, whose name is new. */
  lemma DistinctKeysPrefix(ms: seq<Fragment.Match>, decode: string -> string)
    requires ms != [] && DistinctKeys(ms, decode)
    ensures DistinctKeys(ms[..|ms| - 1], decode)
    ensures forall i :: 0 <= i < |ms| - 1 ==> KeyOf(ms[i], decode) != KeyOf(ms[|ms| - 1], decode)
  {
    var init := ms[..|ms| - 1];
    forall i, j | 0 <= i < j < |init| ensures KeyOf(init[i], decode) != KeyOf(init[j], decode) {
      assert init[i] == ms[i] && init[j] == ms[j];
    }
  }

  /** Appending a match with a new name to distinct names keeps them distinct. */
  lemma DistinctKeysExtend(ms: seq<Fragment.Match>, decode: string -> string)
    requires ms != [] && DistinctKeys(ms[..|ms| - 1], decode)
    requires forall i :: 0 <= i < |ms| - 1 ==> KeyOf(ms[i], decode) != KeyOf(ms[|ms| - 1], decode)
    ensures DistinctKeys(ms, decode)
  {
    var init := ms[..|ms| - 1];
    forall i, j | 0 <= i < j < |ms| ensures KeyOf(ms[i], decode) != KeyOf(ms[j], decode) {
      if j < |ms| - 1 {
        assert init[i] == ms[i] && init[j] == ms[j];
      }
    }
  }

  /** The fold succeeds exactly when the names are distinct. */
  lemma {:induction false} StoredDistinct(ms: seq<Fragment.Match>, decode: string -> string)
    ensures Stored(ms, decode).Some? <==> DistinctKeys(ms, decode)
    decreases |ms|
  {
    if ms != [] {
      var n := |ms| - 1;
      var init := ms[..n];
      StoredDistinct(init, decode);
      if DistinctKeys(ms, decode) {
        DistinctKeysPrefix(ms, decode);
      }
      if Stored(init, decode).Some? {
        var p := Stored(init, decode).value;
        StoredKeys(init, decode);
        if KeyOf(ms[n], decode) in p {
          var i :| 0 <= i < n && KeyOf(init[i], decode) == KeyOf(ms[n], decode);
          assert init[i] == ms[i];
        } else {
          forall i | 0 <= i < n ensures KeyOf(ms[i], decode) != KeyOf(ms[n], decode) {
            assert init[i] == ms[i];
          }
          DistinctKeysExtend(ms, decode);
        }
      }
    }
  }

  /**
   * The fold succeeds exactly when the names are distinct, and then holds
   * every name with its decoded value and nothing else.
   */
  lemma StoredSpec(ms: seq<Fragment.Match>, decode: string -> string)
    ensures Stored(ms, decode).Some? <==> DistinctKeys(ms, decode)
    ensures Stored(ms, decode).Some? ==>
      && (forall k :: k in Stored(ms, decode).value <==> exists i :: 0 <= i < |ms| && KeyOf(ms[i], decode) == k)
      && (forall i :: 0 <= i < |ms| ==>
            KeyOf(ms[i], decode) in Stored(ms, decode).value &&
            Stored(ms, decode).value[KeyOf(ms[i], decode)] == Fragment.DecodedValue(ms[i], decode))
  {
    StoredDistinct(ms, decode);
    if Stored(ms, decode).Some? {
      StoredKeys(ms, decode);
      StoredValues(ms, decode);
    }
  }

  /** Once the fold has given up on a prefix, it gives up on the whole sequence. */
  lemma {:induction false} StoredGivesUp(ms: seq<Fragment.Match>, n: nat, decode: string -> string)
    requires n <= |ms|
    requires Stored(ms[..n], decode) == None
    ensures Stored(ms, decode) == None
    decreases |ms| - n
  {
    if n == |ms| {
      assert ms[..n] == ms;
    } else {
      assert ms[..n + 1][..n] == ms[..n];
      StoredGivesUp(ms, n + 1, decode);
    }
  }

  /**
   * What `parseHash` returns for the fragment `hash`: nothing when the
   * fragment is empty, repeats a name, or lacks a non-empty `obsevent`.
   */
  function ParsedHash(hash: string, decode: string -> string): (r: Option<Params>)
    ensures r.Some? ==> "obsevent" in r.value && r.value["obsevent"] != ""
  {
    if hash == "" then None
    else
      match Stored(Fragment.Matches(hash), decode)
      case None => None
      case Some(p) => if "obsevent" in p && p["obsevent"] != "" then Some(p) else None
  }

  /**
   * `parseHash` in terms of the matches: it yields a dictionary exactly when
   * the fragment is non-empty, its names are distinct and one match names a
   * non-empty `obsevent`; the dictionary then holds every match's value.
   */
  lemma ParsedHashSpec(hash: string, decode: string -> string)
    ensures var ms := Fragment.Matches(hash);
      ParsedHash(hash, decode).Some? <==>
        && hash != ""
        && DistinctKeys(ms, decode)
        && exists i :: 0 <= i < |ms| && KeyOf(ms[i], decode) == "obsevent" && Fragment.DecodedValue(ms[i], decode) != ""
    ensures var ms := Fragment.Matches(hash);
      ParsedHash(hash, decode).Some? ==>
        forall i :: 0 <= i < |ms| ==>
          KeyOf(ms[i], decode) in ParsedHash(hash, decode).value &&
          ParsedHash(hash, decode).value[KeyOf(ms[i], decode)] == Fragment.DecodedValue(ms[i], decode)
  {
    var ms := Fragment.Matches(hash);
    StoredSpec(ms, decode);
    if hash != "" && DistinctKeys(ms, decode) {
      var p := Stored(ms, decode).value;
      if "obsevent" in p {
        var i :| 0 <= i < |ms| && KeyOf(ms[i], decode) == "obsevent";
        assert p["obsevent"] == Fragment.DecodedValue(ms[i], decode);
      }
    }
  }

  /** `parseHash()`, reading the fragment `hash` with the percent-decoder `decode`. */
  method ParseHash(hash: string, decode: string -> string) returns (r: Option<Params>)
    ensures r == ParsedHash(hash, decode)
  {
    if hash == "" {
      return None;
    }
    var ms := Fragment.Matches(hash);
    var params: Params := map[];
    var i := 0;
    while i < |ms|
      invariant 0 <= i <= |ms|
      invariant Stored(ms[..i], decode) == Some(params)
    {
      var name := Lower(decode(ms[i].key));
      var value := Fragment.DecodedValue(ms[i], decode);
      assert ms[..i + 1][..i] == ms[..i];
      if name in params {
        StoredGivesUp(ms, i + 1, decode);
        return None;
      }
      params := params[name := value];
      i := i + 1;
    }
    assert ms[..i] == ms;
    if !("obsevent" in params) || params["obsevent"] == "" {
      return None;
    }
    r := Some(params);
  }

  // ---------------------------------------------------------------------------
  // Commands

  /** The window events `processHash` raises without a detail. */
  datatype WindowEvent =
    | ObsExit
    | ObsStreamingStarting | ObsStreamingStarted | ObsStreamingStopping | ObsStreamingStopped
    | ObsRecordingStarting | ObsRecordingStarted | ObsRecordingStopping | ObsRecordingStopped

  /** The event's name as dispatched on `window`. */
  function EventName(ev: WindowEvent): string {
    match ev
    case ObsExit => "obsExit"
    case ObsStreamingStarting => "obsStreamingStarting"
    case ObsStreamingStarted => "obsStreamingStarted"
    case ObsStreamingStopping => "obsStreamingStopping"
    case ObsStreamingStopped => "obsStreamingStopped"
    case ObsRecordingStarting => "obsRecordingStarting"
    case ObsRecordingStarted => "obsRecordingStarted"
    case ObsRecordingStopping => "obsRecordingStopping"
    case ObsRecordingStopped => "obsRecordingStopped"
  }

  /** The case of the `obsevent` switch a command falls into. */
  datatype Command = Raise(ev: WindowEvent) | VisibilityCommand | ActiveCommand | SceneCommand | UnknownCommand

  /** The `switch` on `params.obsevent.toLowerCase()`. */
  function CommandOf(obsevent: string): Command {
    Switch(Lower(obsevent))
  }

  /** The cases of the `switch`, on the lower-cased command `c`. */
  function Switch(c: string): Command {
    if c == "obsexit" then Raise(ObsExit)
    else if c == "obsstreamingstarting" then Raise(ObsStreamingStarting)
    else if c == "obsstreamingstarted" then Raise(ObsStreamingStarted)
    else if c == "obsstreamingstopping" then Raise(ObsStreamingStopping)
    else if c == "obsstreamingstopped" then Raise(ObsStreamingStopped)
    else if c == "obsrecordingstarting" then Raise(ObsRecordingStarting)
    else if c == "obsrecordingstarted" then Raise(ObsRecordingStarted)
    else if c == "obsrecordingstopping" then Raise(ObsRecordingStopping)
    else if c == "obsrecordingstopped" then Raise(ObsRecordingStopped)
    else if c == "onvisibilitychange" then VisibilityCommand
    else if c == "onactivechange" then ActiveCommand
    else if c == "obsscenechanged" || c == "onscenechanged" then SceneCommand
    else UnknownCommand
  }

  /** Commands are case-insensitive: any casing of a command selects the same case. */
  lemma CommandOfCaseInsensitive(obsevent: string)
    ensures CommandOf(Lower(obsevent)) == CommandOf(obsevent)
  {
    LowerIdempotent(obsevent);
  }

  /** The lower-cased command that raises `ev`: its name with every letter in lower case. */
  function CommandKey(ev: WindowEvent): string {
    match ev
    case ObsExit => "obsexit"
    case ObsStreamingStarting => "obsstreamingstarting"
    case ObsStreamingStarted => "obsstreamingstarted"
    case ObsStreamingStopping => "obsstreamingstopping"
    case ObsStreamingStopped => "obsstreamingstopped"
    case ObsRecordingStarting => "obsrecordingstarting"
    case ObsRecordingStarted => "obsrecordingstarted"
    case ObsRecordingStopping => "obsrecordingstopping"
    case ObsRecordingStopped => "obsrecordingstopped"
  }

  /** A lower-cased command raises `ev` exactly when it is that event's key. */
  lemma SwitchRaise(c: string, ev: WindowEvent)
    ensures Switch(c) == Raise(ev) <==> c == CommandKey(ev)
  {
  }

  /** A command raises an event exactly when, lower-cased, it is that event's key. */
  lemma CommandOfRaise(obsevent: string, ev: WindowEvent)
    ensures CommandOf(obsevent) == Raise(ev) <==> Lower(obsevent) == CommandKey(ev)
  {
    SwitchRaise(Lower(obsevent), ev);
  }

  /** `/^(?:1|0|true|false)$/i`. */
  predicate IsFlag(v: string) {
    var l := Lower(v);
    l == "1" || l == "0" || l == "true" || l == "false"
  }

  // ---------------------------------------------------------------------------
  // Scenes

  /** The scene record the stand-in keeps and hands out. */
  datatype SceneInfo = SceneInfo(name: string, width: nat, height: nat)

  /**
   * The scene a command's parameters describe: a non-empty `name` and
   * `width`/`height` made of digits only, read as decimal numbers.
   */
  function SceneOfParams(p: Params): Option<SceneInfo> {
    if "name" in p && p["name"] != "" && "width" in p && IsDigits(p["width"]) && "height" in p && IsDigits(p["height"])
    then Some(SceneInfo(p["name"], DigitsValue(p["width"]), DigitsValue(p["height"])))
    else None
  }

  /** Writing a scene's sizes as numerals in the parameters reads the same scene back. */
  lemma SceneOfParamsRoundTrip(p: Params, s: SceneInfo)
    requires s.name != ""
    requires "name" in p && p["name"] == s.name
    requires "width" in p && p["width"] == NatDigits(s.width)
    requires "height" in p && p["height"] == NatDigits(s.height)
    ensures SceneOfParams(p) == Some(s)
  {
    NatDigitsValue(s.width);
    NatDigitsValue(s.height);
  }

  /** What `processHash` does. */
  datatype Action =
    | Ignored                                  // `parseHash` gave nothing, or no case matched
    | Raised(ev: WindowEvent)                  // the event is dispatched on `window`
    | InvalidParameters                        // warnings, nothing else
    | ThrewReferenceError(identifier: string)  // the case reads an undeclared variable
    | SceneChanged(scene: SceneInfo, notified: bool)
      // the scene is stored, handed to `obsstudio.onSceneChanged` when `notified`,
      // and dispatched as the detail of `obsSceneChanged`

  /** `processHash` once `parseHash` produced `p`; `sceneCallback` says whether `obsstudio.onSceneChanged` is callable. */
  function ActionOf(p: Params, sceneCallback: bool): Action
    requires "obsevent" in p
  {
    match CommandOf(p["obsevent"])
    case Raise(ev) => Raised(ev)
    case VisibilityCommand =>
      if "value" in p && IsFlag(p["value"]) then ThrewReferenceError("obstudio") else InvalidParameters
    case ActiveCommand =>
      if "value" in p && IsFlag(p["value"]) then ThrewReferenceError("obstudio") else InvalidParameters
    case SceneCommand =>
      (match SceneOfParams(p)
       case Some(s) => SceneChanged(s, sceneCallback)
       case None => InvalidParameters)
    case UnknownCommand => Ignored
  }

  function HashAction(hash: string, decode: string -> string, sceneCallback: bool): Action {
    match ParsedHash(hash, decode)
    case None => Ignored
    case Some(p) => ActionOf(p, sceneCallback)
  }

  /** What the start-up block does with the fragment present at load time. */
  datatype StartupOutcome =
    | NoParams            // `parseHash` gave nothing
    | Seeded(scene: SceneInfo)
    | InvalidScene        // a scene command with bad parameters: warnings only
    | ProcessLater        // any other command: `processHash` is scheduled

  function StartupOf(hash: string, decode: string -> string): StartupOutcome {
    match ParsedHash(hash, decode)
    case None => NoParams
    case Some(p) =>
      var c := Lower(p["obsevent"]);
      if c == "obsscenechanged" || c == "onscenechanged" then
        match SceneOfParams(p)
        case Some(s) => Seeded(s)
        case None => InvalidScene
      else ProcessLater
  }

  /**
   * Start-up stores a scene exactly when `processHash` on the same fragment
   * would change to it, and defers every fragment that is not a scene command.
   */
  lemma StartupAgreesWithProcessHash(hash: string, decode: string -> string, sceneCallback: bool)
    ensures forall s :: StartupOf(hash, decode) == Seeded(s) <==> HashAction(hash, decode, sceneCallback) == SceneChanged(s, sceneCallback)
    ensures StartupOf(hash, decode) == InvalidScene <==>
      ParsedHash(hash, decode).Some? && CommandOf(ParsedHash(hash, decode).value["obsevent"]) == SceneCommand &&
      HashAction(hash, decode, sceneCallback) == InvalidParameters
    ensures StartupOf(hash, decode) == ProcessLater <==>
      ParsedHash(hash, decode).Some? && CommandOf(ParsedHash(hash, decode).value["obsevent"]) != SceneCommand
  {
  }

  /** The stand-in object and the `scene` record it closes over. */
  class ObsAbstraction {
    var name: string
    var width: nat
    var height: nat

    function Scene(): SceneInfo
      reads this
    {
      SceneInfo(name, width, height)
    }

    /** The defaults of lines 10-14. */
    constructor ()
      ensures Scene() == SceneInfo("default", 1024, 720)
    {
      name := "default";
      width := 1024;
      height := 720;
    }

    /** `getCurrentScene(fnc)`: a callable `fnc` receives a copy of the stored scene. */
    method GetCurrentScene(callable: bool) returns (reply: Option<SceneInfo>)
      ensures callable ==> reply == Some(Scene())
      ensures !callable ==> reply == None
    {
      if callable {
        reply := Some(SceneInfo(name, width, height));
      } else {
        reply := None;
      }
    }

    /** `processHash` on the fragment `hash`. */
    method ProcessHash(hash: string, decode: string -> string, sceneCallback: bool) returns (a: Action)
      modifies this
      ensures a == HashAction(hash, decode, sceneCallback)
      ensures a.SceneChanged? ==> Scene() == a.scene
      ensures !a.SceneChanged? ==> unchanged(this)
    {
      var params := ParseHash(hash, decode);
      if params.None? {
        return Ignored;
      }
      var p := params.value;
      match CommandOf(p["obsevent"])
      case Raise(ev) =>
        a := Raised(ev);
      case VisibilityCommand =>
        if !("value" in p) || !IsFlag(p["value"]) {
          a := InvalidParameters;
        } else {
          a := ThrewReferenceError("obstudio");
        }
      case ActiveCommand =>
        if !("value" in p) || !IsFlag(p["value"]) {
          a := InvalidParameters;
        } else {
          a := ThrewReferenceError("obstudio");
        }
      case SceneCommand =>
        if !("name" in p) || p["name"] == "" || !("width" in p) || !IsDigits(p["width"])
          || !("height" in p) || !IsDigits(p["height"])
        {
          a := InvalidParameters;
        } else {
          name := p["name"];
          width := DigitsValue(p["width"]);
          height := DigitsValue(p["height"]);
          a := SceneChanged(SceneInfo(name, width, height), sceneCallback);
        }
      case UnknownCommand =>
        a := Ignored;
    }

    /** The start-up block run once the object exists, on the fragment present at load time. */
    method Startup(hash: string, decode: string -> string) returns (o: StartupOutcome)
      modifies this
      ensures o == StartupOf(hash, decode)
      ensures o.Seeded? ==> Scene() == o.scene
      ensures !o.Seeded? ==> unchanged(this)
    {
      var params := ParseHash(hash, decode);
      if params.None? {
        return NoParams;
      }
      var p := params.value;
      if Lower(p["obsevent"]) == "obsscenechanged" || Lower(p["obsevent"]) == "onscenechanged" {
        if !("name" in p) || p["name"] == "" || !("width" in p) || !IsDigits(p["width"])
          || !("height" in p) || !IsDigits(p["height"])
        {
          o := InvalidScene;
        } else {
          name := p["name"];
          width := DigitsValue(p["width"]);
          height := DigitsValue(p["height"]);
          o := Seeded(SceneInfo(name, width, height));
        }
      } else {
        o := ProcessLater;
      }
    }
  }
}
