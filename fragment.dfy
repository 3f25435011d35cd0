/**
 * The tokeniser both fragment parsers share: the global regular expression
 * `(?:^|&)([^&=]+)(?:=([^&]*))?(?=&|$)` run over the fragment (the address
 * hash without its `#`), modelled by what it matches. Every `&`-separated
 * segment that is non-empty and does not start with `=` is matched whole: the
 * key is the text before its first `=`, the value the text after it, and a
 * segment without `=` has no value. The other segments are skipped.
 */
module Fragment {
  import opened Wrappers
  import opened Text

  /** One match of the expression, before percent-decoding. */
  datatype Match = Match(key: string, value: Option<string>)

  function MatchOf(segment: string): Option<Match> {
    if segment == [] || segment[0] == '=' then None
    else if '=' in segment then
      var i := IndexOf(segment, '=');
      Some(Match(segment[..i], Some(segment[i + 1..])))
    else Some(Match(segment, None))
  }

  function MatchesOf(segments: seq<string>): seq<Match> {
    if segments == [] then []
    else
      var rest := MatchesOf(segments[1..]);
      match MatchOf(segments[0])
      case Some(m) => [m] + rest
      case None => rest
  }

  /** Every match of the expression over `hash`, in order. */
  function Matches(hash: string): seq<Match> {
    MatchesOf(Split(hash, '&'))
  }

  /**
   * The decoded value of a match. A match without `=` leaves the capture group
   * `undefined`, and `decodeURIComponent(undefined)` decodes the text "undefined".
   */
  function DecodedValue(m: Match, decode: string -> string): string {
    decode(m.value.GetOr("undefined"))
  }

  /** The text a match was read from. */
  function Render(m: Match): string {
    m.key + (match m.value case Some(v) => "=" + v case None => "")
  }

  function RenderAll(ms: seq<Match>): (r: seq<string>)
    ensures |r| == |ms|
  {
    if ms == [] then [] else [Render(ms[0])] + RenderAll(ms[1..])
  }

  /** A match the expression can produce: a non-empty key without `&` or `=`, a value without `&`. */
  predicate WellFormed(m: Match) {
    m.key != [] && '&' !in m.key && '=' !in m.key && (m.value.Some? ==> '&' !in m.value.value)
  }

  /** A segment is skipped exactly when it is empty or starts with `=`; otherwise it is read whole. */
  lemma MatchOfSegment(segment: string)
    ensures MatchOf(segment).None? <==> segment == [] || segment[0] == '='
    ensures MatchOf(segment).Some? ==>
      var m := MatchOf(segment).value;
      m.key != [] && '=' !in m.key && Render(m) == segment
  {
    if segment != [] && segment[0] != '=' && '=' in segment {
      var i := IndexOf(segment, '=');
      assert segment[..i] + "=" + segment[i + 1..] == segment;
    }
  }

  /** Reading back the text of a well-formed match gives the match. */
  lemma MatchOfRender(m: Match)
    requires WellFormed(m)
    ensures MatchOf(Render(m)) == Some(m)
  {
    var s := Render(m);
    assert s[..|m.key|] == m.key;
    if m.value.Some? {
      assert s[|m.key|] == '=';
      assert '=' in s;
      assert IndexOf(s, '=') == |m.key|;
      assert s[|m.key| + 1..] == m.value.value;
    } else {
      assert s == m.key;
    }
  }

  lemma MatchOfWellFormed(segment: string)
    requires '&' !in segment
    ensures MatchOf(segment).Some? ==> WellFormed(MatchOf(segment).value)
  {
    if segment != [] && segment[0] != '=' && '=' in segment {
      var i := IndexOf(segment, '=');
      var k, v := segment[..i], segment[i + 1..];
      forall j | 0 <= j < |k| ensures k[j] != '&' && k[j] != '=' { assert k[j] == segment[j]; }
      forall j | 0 <= j < |v| ensures v[j] != '&' { assert v[j] == segment[i + 1 + j]; }
    }
  }

  lemma {:induction false} MatchesOfWellFormed(segments: seq<string>)
    requires forall p :: p in segments ==> '&' !in p
    ensures forall m :: m in MatchesOf(segments) ==> WellFormed(m)
    decreases |segments|
  {
    if segments != [] {
      assert segments[0] in segments;
      assert forall p :: p in segments[1..] ==> p in segments;
      MatchesOfWellFormed(segments[1..]);
      MatchOfWellFormed(segments[0]);
    }
  }

  /** Every match of a fragment is well formed: keys never hold `&` or `=`, values never `&`. */
  lemma MatchesWellFormed(hash: string)
    ensures forall m :: m in Matches(hash) ==> WellFormed(m)
  {
    SplitPartsSeparatorFree(hash, '&');
    MatchesOfWellFormed(Split(hash, '&'));
  }

  lemma {:induction false} MatchesOfRenderAll(ms: seq<Match>)
    requires forall m :: m in ms ==> WellFormed(m)
    ensures MatchesOf(RenderAll(ms)) == ms
    decreases |ms|
  {
    if ms != [] {
      MatchOfRender(ms[0]);
      MatchesOfRenderAll(ms[1..]);
      assert RenderAll(ms)[1..] == RenderAll(ms[1..]);
      assert [ms[0]] + ms[1..] == ms;
    }
  }

  lemma {:induction false} RenderAllSeparatorFree(ms: seq<Match>)
    requires forall m :: m in ms ==> WellFormed(m)
    ensures forall p :: p in RenderAll(ms) ==> '&' !in p
    decreases |ms|
  {
    if ms != [] {
      assert forall m :: m in ms[1..] ==> m in ms;
      RenderAllSeparatorFree(ms[1..]);
      RenderSeparatorFree(ms[0]);
      assert RenderAll(ms) == [Render(ms[0])] + RenderAll(ms[1..]);
    }
  }

  lemma RenderSeparatorFree(m: Match)
    requires WellFormed(m)
    ensures '&' !in Render(m)
  {
    var r := Render(m);
    if m.value.Some? {
      var v := m.value.value;
      assert r == m.key + "=" + v;
      forall j | 0 <= j < |r| ensures r[j] != '&' {
        if j < |m.key| { assert r[j] == m.key[j]; }
        else if j > |m.key| { assert r[j] == v[j - |m.key| - 1]; }
      }
    } else {
      assert r == m.key;
    }
  }

  /** Writing well-formed matches out as `k=v&k=v…` and matching that text gives them back. */
  lemma MatchesOfFragment(ms: seq<Match>)
    requires ms != []
    requires forall m :: m in ms ==> WellFormed(m)
    ensures Matches(Join(RenderAll(ms), '&')) == ms
  {
    RenderAllSeparatorFree(ms);
    SplitJoin(RenderAll(ms), '&');
    MatchesOfRenderAll(ms);
  }

  lemma {:induction false} RenderAllMatchesOf(segments: seq<string>)
    requires forall p :: p in segments ==> p != [] && p[0] != '='
    ensures RenderAll(MatchesOf(segments)) == segments
    decreases |segments|
  {
    if segments != [] {
      assert segments[0] in segments;
      MatchOfSegment(segments[0]);
      assert forall p :: p in segments[1..] ==> p in segments;
      RenderAllMatchesOf(segments[1..]);
      assert MatchesOf(segments) == [MatchOf(segments[0]).value] + MatchesOf(segments[1..]);
      assert [segments[0]] + segments[1..] == segments;
    }
  }

  /**
   * When no segment of the fragment is skipped, the matches cover it: writing
   * them back out reproduces the fragment.
   */
  lemma FragmentOfMatches(hash: string)
    requires forall p :: p in Split(hash, '&') ==> p != [] && p[0] != '='
    ensures |Matches(hash)| == |Split(hash, '&')|
    ensures Join(RenderAll(Matches(hash)), '&') == hash
  {
    RenderAllMatchesOf(Split(hash, '&'));
    JoinSplit(hash, '&');
  }
}
