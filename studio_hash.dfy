/**
 * The decision logic of the browser fallback `processHash` in obsstudio.js:
 * collecting `params` from the fragment, routing `init`/`scenechange` against
 * the ready flag, and validating each event's parameters. The state update it
 * leads to is made by `Studio.Obs.ProcessHash`.
 */
module StudioHash {
  import opened Wrappers
  import opened Text
  import opened Fragment

  /** The four stream and record phases, `obs.STATE`. */
  datatype Phase = Inactive | Starting | Started | Stopping

  /** `obs.STATE.<phase>`: the number the host-signal handlers store. */
  function StateCode(p: Phase): nat {
    match p
    case Inactive => 0
    case Starting => 1
    case Started => 2
    case Stopping => 3
  }

  /** `obs.STATEBYINDEX[key]`: the phase name `processHash` stores. */
  function StateName(p: Phase): string {
    match p
    case Inactive => "INACTIVE"
    case Starting => "STARTING"
    case Started => "STARTED"
    case Stopping => "STOPPING"
  }

  /** `hasKey(obs.STATEBYINDEX, key)`: the phase with that index key, if any. */
  function PhaseAt(key: string): Option<Phase> {
    if key == "0" then Some(Inactive)
    else if key == "1" then Some(Starting)
    else if key == "2" then Some(Started)
    else if key == "3" then Some(Stopping)
    else None
  }

  /** The key of a phase in `STATEBYINDEX` is the decimal text of its `STATE` number. */
  function IndexKey(p: Phase): string {
    [('0' as int + StateCode(p)) as char]
  }

  /** The two tables agree: a key is accepted exactly when it is the index of a phase. */
  lemma PhaseTables(key: string, p: Phase)
    ensures PhaseAt(key) == Some(p) <==> key == IndexKey(p)
  {
  }

  /** Distinct phases have distinct names, so `!==` on names detects every change of phase. */
  lemma StateNamesDistinct(p: Phase, q: Phase)
    ensures StateName(p) == StateName(q) <==> p == q
    ensures StateCode(p) == StateCode(q) <==> p == q
  {
  }

  // ---------------------------------------------------------------------------
  // Collecting params

  /** A value in `params`: the decoded string, or the array a repeated key builds. */
  datatype Param = Single(s: string) | Several(items: seq<string>)

  /** `decodeURIComponent` on both captures of each match, in order. */
  function DecodedPairs(ms: seq<Match>, decode: string -> string): (ps: seq<(string, string)>)
    ensures |ps| == |ms|
  {
    if ms == [] then [] else [(decode(ms[0].key), DecodedValue(ms[0], decode))] + DecodedPairs(ms[1..], decode)
  }

  /** Each pair is its match's decoded name and decoded value, in match order. */
  lemma {:induction false} DecodedPairsAt(ms: seq<Match>, decode: string -> string)
    ensures forall i :: 0 <= i < |ms| ==>
      DecodedPairs(ms, decode)[i] == (decode(ms[i].key), DecodedValue(ms[i], decode))
    decreases |ms|
  {
    if ms != [] {
      DecodedPairsAt(ms[1..], decode);
    }
  }

  /**
   * `params` after the loop of lines 465-475 as intended: a first occurrence
   * stores the string, a second turns it into a two-element array, later ones
   * push onto the array.
   */
  function Collect(ps: seq<(string, string)>): map<string, Param>
    decreases |ps|
  {
    if ps == [] then map[]
    else
      var params := Collect(ps[..|ps| - 1]);
      var name := ps[|ps| - 1].0;
      var value := ps[|ps| - 1].1;
      if name !in params then params[name := Single(value)]
      else if params[name].Several? then params[name := Several(params[name].items + [value])]
      else params[name := Several([params[name].s, value])]
  }

  /**
   * The same loop as written: line 473 assigns `params.name`, the key "name",
   * so a second occurrence of any other key leaves that key's first string in
   * place.
   */
  function CollectAsWritten(ps: seq<(string, string)>): map<string, Param>
    decreases |ps|
  {
    if ps == [] then map[]
    else
      var params := CollectAsWritten(ps[..|ps| - 1]);
      var name := ps[|ps| - 1].0;
      var value := ps[|ps| - 1].1;
      if name !in params then params[name := Single(value)]
      else if params[name].Several? then params[name := Several(params[name].items + [value])]
      else params["name" := Several([params[name].s, value])]
  }

  /** Every value given for `k`, in fragment order. */
  function ValuesOf(ps: seq<(string, string)>, k: string): seq<string>
    decreases |ps|
  {
    if ps == [] then []
    else ValuesOf(ps[..|ps| - 1], k) + (if ps[|ps| - 1].0 == k then [ps[|ps| - 1].1] else [])
  }

  /**
   * The intended meaning of `params`: a key is present exactly when it occurs;
   * a key given once maps to its string, and a key given more than once maps
   * to the array of all its values in order.
   */
  lemma {:induction false} CollectValues(ps: seq<(string, string)>, k: string)
    ensures k in Collect(ps) <==> ValuesOf(ps, k) != []
    ensures k in Collect(ps) ==>
      Collect(ps)[k] == if |ValuesOf(ps, k)| == 1 then Single(ValuesOf(ps, k)[0]) else Several(ValuesOf(ps, k))
    decreases |ps|
  {
    if ps != [] {
      CollectValues(ps[..|ps| - 1], k);
    }
  }

  /** The loop of lines 465-475, with the key of line 473 as intended. */
  method CollectParams(ps: seq<(string, string)>) returns (params: map<string, Param>)
    ensures params == Collect(ps)
  {
    params := map[];
    var i := 0;
    while i < |ps|
      invariant 0 <= i <= |ps|
      invariant params == Collect(ps[..i])
    {
      var name, value := ps[i].0, ps[i].1;
      assert ps[..i + 1][..i] == ps[..i];
      if name !in params {
        params := params[name := Single(value)];
      } else if params[name].Several? {
        params := params[name := Several(params[name].items + [value])];
      } else {
        params := params[name := Several([params[name].s, value])];
      }
      i := i + 1;
    }
    assert ps[..i] == ps;
  }

  // ---------------------------------------------------------------------------
  // Validation

  /** `Number()` of a parameter, for digit strings only; `None` stands for NaN. */
  function NumberOf(v: Param): Option<nat> {
    match v
    case Single(s) =>
      if s == "" then Some(0)
      else if IsDigits(s) then Some(DigitsValue(s))
      else None
    case Several(_) => None
  }

  /** JavaScript `Number` values as far as scene sizes need them. */
  datatype JsNumber = Finite(n: nat) | NaN

  /** The scene an `init` or `scenechange` carries. */
  datatype SceneFields = SceneFields(name: string, width: nat, height: nat)

  /** `!hasKey(params, k) || !params[k]`: a missing or empty size. */
  predicate SizeMissing(params: map<string, Param>, k: string) {
    k !in params || params[k] == Single("")
  }

  /**
   * Lines 500-519, 529 as intended: the scene name must be a non-empty
   * string; a missing size takes the page's size on the same axis, a given
   * one must be a number.
   */
  function SceneOf(params: map<string, Param>, clientWidth: nat, clientHeight: nat): Option<SceneFields> {
    if !("scene" in params && params["scene"].Single? && params["scene"].s != "") then None
    else
      var w := if SizeMissing(params, "width") then Some(clientWidth) else NumberOf(params["width"]);
      var h := if SizeMissing(params, "height") then Some(clientHeight) else NumberOf(params["height"]);
      if w.None? || h.None? then None
      else Some(SceneFields(params["scene"].s, w.value, h.value))
  }

  /**
   * Line 515 as intended: a missing height takes the page height, and giving a
   * non-empty numeric height instead changes that size and nothing else of the scene.
   */
  lemma SceneOfMissingHeight(params: map<string, Param>, v: Param, clientWidth: nat, clientHeight: nat)
    requires "height" !in params
    requires v != Single("") && NumberOf(v).Some?
    ensures SceneOf(params, clientWidth, clientHeight).Some? <==> SceneOf(params["height" := v], clientWidth, clientHeight).Some?
    ensures SceneOf(params, clientWidth, clientHeight).Some? ==>
      && SceneOf(params, clientWidth, clientHeight).value.height == clientHeight
      && SceneOf(params["height" := v], clientWidth, clientHeight).value
         == SceneOf(params, clientWidth, clientHeight).value.(height := NumberOf(v).value)
  {
    var given := params["height" := v];
    assert "scene" in params <==> "scene" in given;
    assert "scene" in params ==> params["scene"] == given["scene"];
    assert SizeMissing(params, "width") <==> SizeMissing(given, "width");
    assert "width" in params ==> params["width"] == given["width"];
  }

  /** The same for the width (lines 503-510): each axis is filled in independently. */
  lemma SceneOfMissingWidth(params: map<string, Param>, v: Param, clientWidth: nat, clientHeight: nat)
    requires "width" !in params
    requires v != Single("") && NumberOf(v).Some?
    ensures SceneOf(params, clientWidth, clientHeight).Some? <==> SceneOf(params["width" := v], clientWidth, clientHeight).Some?
    ensures SceneOf(params, clientWidth, clientHeight).Some? ==>
      && SceneOf(params, clientWidth, clientHeight).value.width == clientWidth
      && SceneOf(params["width" := v], clientWidth, clientHeight).value
         == SceneOf(params, clientWidth, clientHeight).value.(width := NumberOf(v).value)
  {
    var given := params["width" := v];
    assert "scene" in params <==> "scene" in given;
    assert "scene" in params ==> params["scene"] == given["scene"];
    assert SizeMissing(params, "height") <==> SizeMissing(given, "height");
    assert "height" in params ==> params["height"] == given["height"];
  }

  /**
   * A scene written out as `scene=N&width=W&height=H`, with the sizes as
   * numerals, is read back as that scene whatever the page's size.
   */
  lemma SceneOfRoundTrip(params: map<string, Param>, sc: SceneFields, clientWidth: nat, clientHeight: nat)
    requires sc.name != ""
    requires "scene" in params && params["scene"] == Single(sc.name)
    requires "width" in params && params["width"] == Single(NatDigits(sc.width))
    requires "height" in params && params["height"] == Single(NatDigits(sc.height))
    ensures SceneOf(params, clientWidth, clientHeight) == Some(sc)
  {
    NatDigitsValue(sc.width);
    NatDigitsValue(sc.height);
  }

  /**
   * Lines 500-519, 529 as written: line 515 assigns the page height to
   * `params.width`, so a missing or empty height overwrites the width and
   * leaves `Number(params.height)` as NaN (missing) or 0 (empty).
   */
  function SceneOfAsWritten(params: map<string, Param>, clientWidth: nat, clientHeight: nat): Option<(string, JsNumber, JsNumber)> {
    if !("scene" in params && params["scene"].Single? && params["scene"].s != "") then None
    else if !SizeMissing(params, "width") && NumberOf(params["width"]).None? then None
    else if !SizeMissing(params, "height") && NumberOf(params["height"]).None? then None
    else
      var width :=
        if SizeMissing(params, "height") then Finite(clientHeight)
        else if SizeMissing(params, "width") then Finite(clientWidth)
        else Finite(NumberOf(params["width"]).value);
      var height :=
        if "height" !in params then NaN
        else if params["height"] == Single("") then Finite(0)
        else Finite(NumberOf(params["height"]).value);
      Some((params["scene"].s, width, height))
  }

  /**
   * Lines 482-493: `scenechange` before ready counts as `init`, `init` after
   * ready as `scenechange`, and any other event before ready is dropped.
   */
  function Route(event: string, ready: bool): Option<string> {
    if event == "scenechange" && !ready then Some("init")
    else if event == "init" && ready then Some("scenechange")
    else if event != "init" && !ready then None
    else Some(event)
  }

  /** Before ready only the two scene events pass, both as `init`; after ready nothing is `init`. */
  lemma RouteGate(event: string, ready: bool)
    ensures Route(event, ready).Some? && !ready <==> !ready && (event == "init" || event == "scenechange")
    ensures Route(event, ready).Some? ==> (Route(event, ready).value == "init" <==> !ready)
    ensures ready ==> Route(event, ready).Some?
    ensures ready && event != "init" ==> Route(event, ready) == Some(event)
  {
  }

  /**
   * `!!params.state` after lines 538-549: "true" and "false" (any case) are
   * booleans, a numeric string is its number, anything else a non-empty string.
   */
  function StateTruthy(state: string): bool {
    var l := Lower(state);
    if l == "true" then true
    else if l == "false" then false
    else
      match NumberOf(Single(l))
      case Some(n) => n != 0
      case None => l != ""
  }

  /** What one call of `processHash` is to do, before it touches any state. */
  datatype Decision =
    | Skip                                           // returns early: no change, no emission
    | Seed(scene: SceneFields)                       // the `init` path
    | ChangeScene(scene: SceneFields)                // the `scenechange` path
    | Visibility(truthy: bool)                       // the `visibilitychange` path
    | Stream(phase: Phase)                           // the `streamstate` path
    | UndefinedIdentifier                            // reaches `else if (recordstate)`

  /** Lines 477-571 on a collected `params`. */
  function Decide(params: map<string, Param>, ready: bool, clientWidth: nat, clientHeight: nat): Decision {
    if !("event" in params && params["event"].Single? && params["event"].s != "") then Skip
    else
      match Route(Lower(params["event"].s), ready)
      case None => Skip
      case Some(event) =>
        if event == "init" || event == "scenechange" then
          match SceneOf(params, clientWidth, clientHeight)
          case None => Skip
          case Some(sc) => if event == "init" then Seed(sc) else ChangeScene(sc)
        else if event == "visibilitychange" then
          if "state" in params && params["state"].Single? then Visibility(StateTruthy(params["state"].s))
          else Skip
        else if event == "streamstate" then
          if "state" in params && params["state"].Single? && PhaseAt(params["state"].s).Some? then
            Stream(PhaseAt(params["state"].s).value)
          else Skip
        else UndefinedIdentifier
  }

  /** The whole decision for a fragment; an empty fragment is ignored. */
  function DecideHash(hash: string, decode: string -> string, ready: bool, clientWidth: nat, clientHeight: nat): Decision {
    if hash == "" then Skip
    else Decide(Collect(DecodedPairs(Matches(hash), decode)), ready, clientWidth, clientHeight)
  }

  /** An empty fragment, or one without a non-empty string `event`, has no effect. */
  lemma DecideWithoutEvent(params: map<string, Param>, ready: bool, clientWidth: nat, clientHeight: nat)
    requires !("event" in params && params["event"].Single? && params["event"].s != "")
    ensures Decide(params, ready, clientWidth, clientHeight) == Skip
  {
  }

  /**
   * The readiness gate: before ready the only effect is the `init` seed, and
   * after ready there is never a second seed.
   */
  lemma DecideGate(params: map<string, Param>, ready: bool, clientWidth: nat, clientHeight: nat)
    ensures var d := Decide(params, ready, clientWidth, clientHeight);
      (!ready ==> d.Skip? || d.Seed?) && (ready ==> !d.Seed?)
  {
    if "event" in params && params["event"].Single? && params["event"].s != "" {
      RouteGate(Lower(params["event"].s), ready);
    }
  }

  /**
   * A valid scene event seeds the state before ready and changes the scene
   * after it, whichever of the two names it carries.
   */
  lemma DecideSceneEvent(params: map<string, Param>, ready: bool, clientWidth: nat, clientHeight: nat)
    requires "event" in params && params["event"].Single?
    requires Lower(params["event"].s) == "init" || Lower(params["event"].s) == "scenechange"
    requires SceneOf(params, clientWidth, clientHeight).Some?
    ensures var sc := SceneOf(params, clientWidth, clientHeight).value;
      Decide(params, ready, clientWidth, clientHeight) == if ready then ChangeScene(sc) else Seed(sc)
  {
    assert |Lower(params["event"].s)| == |params["event"].s|;
  }

  /**
   * With the collection as intended, a scene given twice is an array, not a
   * string, so the fragment changes no scene.
   */
  lemma DuplicateSceneIgnored(ps: seq<(string, string)>, ready: bool, clientWidth: nat, clientHeight: nat)
    requires |ValuesOf(ps, "scene")| >= 2
    ensures !Decide(Collect(ps), ready, clientWidth, clientHeight).Seed?
    ensures !Decide(Collect(ps), ready, clientWidth, clientHeight).ChangeScene?
  {
    CollectValues(ps, "scene");
  }

  /** A fragment whose pairs are `event=init&scene=Main&scene=Other`. */
  function DuplicateScenePairs(): seq<(string, string)> {
    [("event", "init"), ("scene", "Main"), ("scene", "Other")]
  }

  /**
   * As written, the duplicate scene keeps its first value, so the `init` branch
   * seeds scene "Main" (with line 515 as written too, at the page height by NaN);
   * as intended, the fragment is skipped.
   */
  lemma DuplicateSceneAsWritten(clientWidth: nat, clientHeight: nat)
    ensures CollectAsWritten(DuplicateScenePairs())
         == map["event" := Single("init"), "scene" := Single("Main"), "name" := Several(["Main", "Other"])]
    ensures Route(Lower("init"), false) == Some("init")
    ensures SceneOfAsWritten(CollectAsWritten(DuplicateScenePairs()), clientWidth, clientHeight)
         == Some(("Main", Finite(clientHeight), NaN))
    ensures Decide(Collect(DuplicateScenePairs()), false, clientWidth, clientHeight) == Skip
  {
    var s1 := [("event", "init")];
    var s2 := s1 + [("scene", "Main")];
    var s3 := s2 + [("scene", "Other")];
    assert s3 == DuplicateScenePairs();
    assert s3[..2] == s2 && s2[..1] == s1 && s1[..0] == [];
    assert CollectAsWritten(s1) == map["event" := Single("init")];
    assert CollectAsWritten(s2) == map["event" := Single("init"), "scene" := Single("Main")];
    assert Collect(s1) == map["event" := Single("init")];
    assert Collect(s2) == map["event" := Single("init"), "scene" := Single("Main")];
    assert Lower("init") == "init";
  }

  /** With width 1280 given and the height missing. */
  function MissingHeightParams(): map<string, Param> {
    map["event" := Single("init"), "scene" := Single("Main"), "width" := Single("1280")]
  }

  /** As written, a missing height makes the width the page height and the height NaN. */
  lemma MissingHeightAsWritten(clientWidth: nat, clientHeight: nat)
    ensures SceneOfAsWritten(MissingHeightParams(), clientWidth, clientHeight) == Some(("Main", Finite(clientHeight), NaN))
    ensures SceneOf(MissingHeightParams(), clientWidth, clientHeight) == Some(SceneFields("Main", 1280, clientHeight))
  {
    Number1280();
  }

  /** The pairs of the fragment `event=init&scene=Main&width=1280&height=720`. */
  function InitPairs(): seq<(string, string)> {
    [("event", "init"), ("scene", "Main"), ("width", "1280"), ("height", "720")]
  }

  /** The text after `#` in `#event=init&scene=Main&width=1280&height=720`. */
  function InitHash(): string {
    "event=init&scene=Main&width=1280&height=720"
  }

  /** The matches of that fragment, before decoding. */
  function InitMatches(): seq<Match> {
    [Match("event", Some("init")), Match("scene", Some("Main")),
     Match("width", Some("1280")), Match("height", Some("720"))]
  }

  /** The fragment's `&`-separated segments. */
  function InitSegments(): seq<string> {
    ["event=init", "scene=Main", "width=1280", "height=720"]
  }

  lemma RenderAllCons(m: Match, rest: seq<Match>)
    ensures RenderAll([m] + rest) == [Render(m)] + RenderAll(rest)
  {
    assert ([m] + rest)[1..] == rest;
  }

  lemma JoinCons(p: string, rest: seq<string>, sep: char)
    requires |rest| >= 1
    ensures Join([p] + rest, sep) == p + [sep] + Join(rest, sep)
  {
    assert ([p] + rest)[1..] == rest;
  }

  lemma InitRender()
    ensures RenderAll(InitMatches()) == InitSegments()
  {
    var m0, m1, m2, m3 := Match("event", Some("init")), Match("scene", Some("Main")), Match("width", Some("1280")), Match("height", Some("720"));
    assert Render(m0) == "event=init";
    assert Render(m1) == "scene=Main";
    assert Render(m2) == "width=1280";
    assert Render(m3) == "height=720";
    RenderAllCons(m3, []);
    RenderAllCons(m2, [m3]);
    RenderAllCons(m1, [m2, m3]);
    RenderAllCons(m0, [m1, m2, m3]);
    assert [m0] + [m1, m2, m3] == InitMatches();
  }

  lemma InitJoinTail()
    ensures Join(InitSegments()[2..], '&') == "width=1280&height=720"
  {
    var t := InitSegments()[2..];
    assert t == ["width=1280"] + ["height=720"];
    JoinCons("width=1280", ["height=720"], '&');
  }

  lemma InitJoinRest()
    ensures Join(InitSegments()[1..], '&') == "scene=Main&width=1280&height=720"
  {
    var t := InitSegments()[1..];
    assert t == ["scene=Main"] + InitSegments()[2..];
    JoinCons("scene=Main", InitSegments()[2..], '&');
    InitJoinTail();
  }

  lemma InitJoin()
    ensures Join(InitSegments(), '&') == InitHash()
  {
    assert InitSegments() == ["event=init"] + InitSegments()[1..];
    JoinCons("event=init", InitSegments()[1..], '&');
    InitJoinRest();
  }

  lemma InitWellFormed()
    ensures forall m :: m in InitMatches() ==> WellFormed(m)
  {
    assert WellFormed(Match("event", Some("init")));
    assert WellFormed(Match("scene", Some("Main")));
    assert WellFormed(Match("width", Some("1280")));
    assert WellFormed(Match("height", Some("720")));
  }

  /** Tokenising the fragment gives its four `name=value` matches, in order. */
  lemma InitHashMatches()
    ensures Matches(InitHash()) == InitMatches()
  {
    InitRender();
    InitJoin();
    InitWellFormed();
    MatchesOfFragment(InitMatches());
  }

  /** When `decodeURIComponent` leaves the eight plain words alone, the decoded pairs are these. */
  lemma InitDecoded(decode: string -> string)
    requires decode("event") == "event" && decode("init") == "init"
    requires decode("scene") == "scene" && decode("Main") == "Main"
    requires decode("width") == "width" && decode("1280") == "1280"
    requires decode("height") == "height" && decode("720") == "720"
    ensures DecodedPairs(InitMatches(), decode) == InitPairs()
  {
    var m0, m1, m2, m3 := Match("event", Some("init")), Match("scene", Some("Main")), Match("width", Some("1280")), Match("height", Some("720"));
    DecodedPairsCons(m3, [], decode);
    DecodedPairsCons(m2, [m3], decode);
    DecodedPairsCons(m1, [m2, m3], decode);
    DecodedPairsCons(m0, [m1, m2, m3], decode);
    assert [m0] + [m1, m2, m3] == InitMatches();
  }

  /** The pairs `processHash` reads from the fragment text itself. */
  lemma InitHashPairs(decode: string -> string)
    requires decode("event") == "event" && decode("init") == "init"
    requires decode("scene") == "scene" && decode("Main") == "Main"
    requires decode("width") == "width" && decode("1280") == "1280"
    requires decode("height") == "height" && decode("720") == "720"
    ensures DecodedPairs(Matches(InitHash()), decode) == InitPairs()
  {
    InitHashMatches();
    InitDecoded(decode);
  }

  lemma DecodedPairsCons(m: Match, rest: seq<Match>, decode: string -> string)
    ensures DecodedPairs([m] + rest, decode) == [(decode(m.key), DecodedValue(m, decode))] + DecodedPairs(rest, decode)
  {
    assert ([m] + rest)[1..] == rest;
  }

  /** The fragment's `params`: four distinct keys, each holding its string. */
  lemma InitParams()
    ensures Collect(InitPairs())
         == map["event" := Single("init"), "scene" := Single("Main"),
                "width" := Single("1280"), "height" := Single("720")]
  {
    var s1 := [("event", "init")];
    var s2 := s1 + [("scene", "Main")];
    var s3 := s2 + [("width", "1280")];
    var s4 := s3 + [("height", "720")];
    assert s4 == InitPairs();
    assert s4[..3] == s3 && s3[..2] == s2 && s2[..1] == s1 && s1[..0] == [];
    assert Collect(s1) == map["event" := Single("init")];
    assert Collect(s2) == map["event" := Single("init"), "scene" := Single("Main")];
    assert Collect(s3) == map["event" := Single("init"), "scene" := Single("Main"), "width" := Single("1280")];
  }

  /** The sizes of the fragment read as numbers. */
  lemma Number1280()
    ensures NumberOf(Single("1280")) == Some(1280)
  {
    assert IsDigits("1280");
    DigitsValueAppend("", '1');
    assert "" + ['1'] == "1";
    DigitsValueAppend("1", '2');
    assert "1" + ['2'] == "12";
    DigitsValueAppend("12", '8');
    assert "12" + ['8'] == "128";
    DigitsValueAppend("128", '0');
    assert "128" + ['0'] == "1280";
  }

  lemma Number720()
    ensures NumberOf(Single("720")) == Some(720)
  {
    assert IsDigits("720");
    DigitsValueAppend("", '7');
    assert "" + ['7'] == "7";
    DigitsValueAppend("7", '2');
    assert "7" + ['2'] == "72";
    DigitsValueAppend("72", '0');
    assert "72" + ['0'] == "720";
  }

  /** Before ready, `event=init&scene=Main&width=1280&height=720` seeds the scene Main at 1280 by 720; after it, changes to it. */
  lemma InitSeeds(clientWidth: nat, clientHeight: nat)
    ensures Decide(Collect(InitPairs()), false, clientWidth, clientHeight) == Seed(SceneFields("Main", 1280, 720))
    ensures Decide(Collect(InitPairs()), true, clientWidth, clientHeight) == ChangeScene(SceneFields("Main", 1280, 720))
  {
    InitParams();
    Number1280();
    Number720();
    var params := Collect(InitPairs());
    assert !SizeMissing(params, "width") && !SizeMissing(params, "height");
    assert SceneOf(params, clientWidth, clientHeight) == Some(SceneFields("Main", 1280, 720));
    assert Lower("init") == "init";
    DecideSceneEvent(params, false, clientWidth, clientHeight);
    DecideSceneEvent(params, true, clientWidth, clientHeight);
  }

  /**
   * The whole of `processHash` on `#event=init&scene=Main&width=1280&height=720`,
   * from the text: it seeds Main at 1280 by 720 before ready and changes to it after.
   */
  lemma InitHashSeeds(decode: string -> string, clientWidth: nat, clientHeight: nat)
    requires decode("event") == "event" && decode("init") == "init"
    requires decode("scene") == "scene" && decode("Main") == "Main"
    requires decode("width") == "width" && decode("1280") == "1280"
    requires decode("height") == "height" && decode("720") == "720"
    ensures DecideHash(InitHash(), decode, false, clientWidth, clientHeight) == Seed(SceneFields("Main", 1280, 720))
    ensures DecideHash(InitHash(), decode, true, clientWidth, clientHeight) == ChangeScene(SceneFields("Main", 1280, 720))
  {
    InitHashPairs(decode);
    InitSeeds(clientWidth, clientHeight);
    assert InitHash() != "";
  }
}
