/**
  The parts of the configuration other components rely on: validated penalty windows, distinct
  upstreams, and the merge of a backend's overrides into the scoring defaults.
 */
module Config {
  import opened Sequences
  import opened Wrappers
  import opened KeyFormat

  datatype ConfigError = InvalidWindow

  // ---------------------------------------------------------------- penalty windows

  datatype PenaltyWindow = PenaltyWindow(
    windowSeconds: int,
    softThreshold: int,
    hardThreshold: int,
    softPenalty: int,
    hardPenalty: int)

  /** The field bounds and the ordering check a window must pass to be constructed. */
  predicate ValidWindow(w: PenaltyWindow) {
    && w.windowSeconds > 0
    && w.softThreshold >= 0 && w.hardThreshold >= 0 && w.softPenalty >= 0 && w.hardPenalty >= 0
    && w.hardThreshold >= w.softThreshold
    && w.hardPenalty >= w.softPenalty
  }

  ghost predicate ValidWindows(windows: seq<PenaltyWindow>) {
    forall i :: 0 <= i < |windows| ==> ValidWindow(windows[i])
  }

  /** The fields an override names. */
  datatype WindowOverride = WindowOverride(
    windowSeconds: Option<int>,
    softThreshold: Option<int>,
    hardThreshold: Option<int>,
    softPenalty: Option<int>,
    hardPenalty: Option<int>)

  function Or(o: Option<int>, default: int): int { if o.Some? then o.value else default }

  /** `{**window, **override}`. */
  function MergeWindow(w: PenaltyWindow, o: WindowOverride): PenaltyWindow {
    PenaltyWindow(Or(o.windowSeconds, w.windowSeconds), Or(o.softThreshold, w.softThreshold),
                  Or(o.hardThreshold, w.hardThreshold), Or(o.softPenalty, w.softPenalty),
                  Or(o.hardPenalty, w.hardPenalty))
  }

  const NO_OVERRIDE := WindowOverride(None, None, None, None, None)

  /** An override naming every field with another window's values. */
  function Naming(v: PenaltyWindow): WindowOverride {
    WindowOverride(Some(v.windowSeconds), Some(v.softThreshold), Some(v.hardThreshold),
                   Some(v.softPenalty), Some(v.hardPenalty))
  }

  datatype Field = WindowSeconds | SoftThreshold | HardThreshold | SoftPenalty | HardPenalty

  function ValueIn(w: PenaltyWindow, f: Field): int {
    match f
    case WindowSeconds => w.windowSeconds
    case SoftThreshold => w.softThreshold
    case HardThreshold => w.hardThreshold
    case SoftPenalty => w.softPenalty
    case HardPenalty => w.hardPenalty
  }

  function Named(o: WindowOverride, f: Field): Option<int> {
    match f
    case WindowSeconds => o.windowSeconds
    case SoftThreshold => o.softThreshold
    case HardThreshold => o.hardThreshold
    case SoftPenalty => o.softPenalty
    case HardPenalty => o.hardPenalty
  }

  /** Exactly the fields an override names change, each to the value it names; so naming nothing
      changes nothing, naming everything replaces the window, and merging the same override again
      changes nothing more. */
  lemma MergeLaws(w: PenaltyWindow, v: PenaltyWindow, o: WindowOverride)
    ensures forall f :: ValueIn(MergeWindow(w, o), f)
                        == if Named(o, f).Some? then Named(o, f).value else ValueIn(w, f)
    ensures MergeWindow(w, NO_OVERRIDE) == w
    ensures MergeWindow(w, Naming(v)) == v
    ensures MergeWindow(MergeWindow(w, o), o) == MergeWindow(w, o)
  {
  }

  // ---------------------------------------------------------------- resolving a backend's scoring

  const DIMENSIONS: seq<Dimension> := [Ip, Net24, Net6, Asn, Country, User]

  lemma EveryDimensionListed(d: Dimension)
    ensures d in DIMENSIONS
  {
    match d
    case Ip => assert DIMENSIONS[0] == d;
    case Net24 => assert DIMENSIONS[1] == d;
    case Net6 => assert DIMENSIONS[2] == d;
    case Asn => assert DIMENSIONS[3] == d;
    case Country => assert DIMENSIONS[4] == d;
    case User => assert DIMENSIONS[5] == d;
  }

  type Penalties = map<Dimension, seq<PenaltyWindow>>

  datatype ScoringConfig = ScoringConfig(
    exemptCountries: seq<string>,
    baseScores: map<string, int>,
    minScore: int,
    maxScore: int,
    penalties: Penalties)

  datatype BackendOverride = BackendOverride(
    penalties: map<Dimension, WindowOverride>,
    baseScores: map<string, int>)

  /** Every dimension configured, with at least one window. */
  ghost predicate Complete(penalties: Penalties) {
    forall d: Dimension :: d in penalties && penalties[d] != []
  }

  /** A configuration whose windows all pass validation. */
  ghost predicate Validated(config: ScoringConfig) {
    Complete(config.penalties) && forall d: Dimension :: ValidWindows(config.penalties[d])
  }

  /** An override only ever touches a dimension's first window. */
  function Overridden(windows: seq<PenaltyWindow>, overrides: map<Dimension, WindowOverride>, d: Dimension)
    : seq<PenaltyWindow>
    requires windows != []
  {
    if d in overrides then windows[0 := MergeWindow(windows[0], overrides[d])] else windows
  }

  lemma OverriddenValidIff(windows: seq<PenaltyWindow>, overrides: map<Dimension, WindowOverride>, d: Dimension)
    requires windows != []
    ensures ValidWindows(Overridden(windows, overrides, d)) <==> forall i :: 0 <= i < |windows| ==>
      var w := if i == 0 && d in overrides then MergeWindow(windows[0], overrides[d]) else windows[i];
      0 < w.windowSeconds && 0 <= w.softThreshold <= w.hardThreshold && 0 <= w.softPenalty <= w.hardPenalty
  {
    var merged := Overridden(windows, overrides, d);
    forall i | 0 <= i < |windows|
      ensures ValidWindow(merged[i]) <==>
        var w := if i == 0 && d in overrides then MergeWindow(windows[0], overrides[d]) else windows[i];
        0 < w.windowSeconds && 0 <= w.softThreshold <= w.hardThreshold && 0 <= w.softPenalty <= w.hardPenalty
    {
    }
  }

  method CheckWindows(windows: seq<PenaltyWindow>) returns (ok: bool)
    ensures ok <==> ValidWindows(windows)
  {
    for i := 0 to |windows|
      invariant forall j :: 0 <= j < i ==> ValidWindow(windows[j])
    {
      if !ValidWindow(windows[i]) {
        return false;
      }
    }
    ok := true;
  }

  /** Merges the overrides and validates every window again: it succeeds exactly when every merged
      window is valid, changes nothing an override does not name, and always yields a validated
      configuration, which is what the scoring engine needs. */
  method ResolveScoringConfig(scoring: ScoringConfig, override: BackendOverride)
    returns (r: Result<ScoringConfig, ConfigError>)
    requires Complete(scoring.penalties)
    ensures r.Ok? <==> forall d: Dimension, i :: 0 <= i < |scoring.penalties[d]| ==>
      var w := if i == 0 && d in override.penalties then MergeWindow(scoring.penalties[d][0], override.penalties[d])
               else scoring.penalties[d][i];
      && 0 < w.windowSeconds && 0 <= w.softThreshold <= w.hardThreshold && 0 <= w.softPenalty <= w.hardPenalty
    ensures r.Ok? ==>
      && Validated(r.value)
      && (forall d: Dimension :: |r.value.penalties[d]| == |scoring.penalties[d]|)
      && (forall d: Dimension, i :: 0 <= i < |scoring.penalties[d]| ==>
            r.value.penalties[d][i]
            == if i == 0 && d in override.penalties then MergeWindow(scoring.penalties[d][0], override.penalties[d])
               else scoring.penalties[d][i])
      && r.value.baseScores == scoring.baseScores + override.baseScores
      && r.value.exemptCountries == scoring.exemptCountries
      && r.value.minScore == scoring.minScore && r.value.maxScore == scoring.maxScore
  {
    forall d: Dimension
      ensures ValidWindows(Overridden(scoring.penalties[d], override.penalties, d)) <==>
        forall i :: 0 <= i < |scoring.penalties[d]| ==>
          var w := if i == 0 && d in override.penalties then MergeWindow(scoring.penalties[d][0], override.penalties[d])
                   else scoring.penalties[d][i];
          0 < w.windowSeconds && 0 <= w.softThreshold <= w.hardThreshold && 0 <= w.softPenalty <= w.hardPenalty
    {
      OverriddenValidIff(scoring.penalties[d], override.penalties, d);
    }
    var penalties: Penalties := map[];
    for i := 0 to |DIMENSIONS|
      invariant forall d :: d in penalties <==> d in DIMENSIONS[..i]
      invariant forall d :: d in penalties ==>
        penalties[d] == Overridden(scoring.penalties[d], override.penalties, d) && ValidWindows(penalties[d])
    {
      var d := DIMENSIONS[i];
      var windows := scoring.penalties[d];
      if d in override.penalties {
        windows := windows[0 := MergeWindow(windows[0], override.penalties[d])];
      }
      var ok := CheckWindows(windows);
      if !ok {
        return Err(InvalidWindow);
      }
      penalties := penalties[d := windows];
    }
    forall d: Dimension ensures d in penalties {
      EveryDimensionListed(d);
      assert DIMENSIONS[..|DIMENSIONS|] == DIMENSIONS;
    }
    r := Ok(scoring.(penalties := penalties, baseScores := scoring.baseScores + override.baseScores));
  }

  // ---------------------------------------------------------------- distinct upstreams

  /** `str(url).rstrip("/")`. */
  function RStrip(url: string): (r: string)
    ensures r <= url && (forall i :: |r| <= i < |url| ==> url[i] == '/')
    ensures r == [] || r[|r| - 1] != '/'
  {
    if url != [] && url[|url| - 1] == '/' then RStrip(url[..|url| - 1]) else url
  }

  function Stripped(urls: seq<string>): (r: seq<string>)
    ensures |r| == |urls|
    ensures forall i :: 0 <= i < |urls| ==> r[i] == RStrip(urls[i])
  {
    if urls == [] then [] else Stripped(urls[..|urls| - 1]) + [RStrip(urls[|urls| - 1])]
  }

  /** Accepts exactly the lists whose URLs differ in more than trailing slashes. */
  method CheckUniqueUpstreams(urls: seq<string>) returns (ok: bool)
    ensures ok <==> Distinct(Stripped(urls))
  {
    var seen: set<string> := {};
    for i := 0 to |urls|
      invariant forall k :: k in seen <==> k in Stripped(urls[..i])
      invariant Distinct(Stripped(urls[..i]))
    {
      assert urls[..i + 1][..i] == urls[..i];
      var before := Stripped(urls[..i]);
      var key := RStrip(urls[i]);
      assert Stripped(urls[..i + 1])[..i] == before;
      if key in seen {
        DuplicatePrefix(urls, i + 1);
        return false;
      }
      seen := seen + {key};
    }
    assert urls[..|urls|] == urls;
    ok := true;
  }

  lemma {:induction false} DuplicatePrefix(urls: seq<string>, n: nat)
    requires n <= |urls| && !Distinct(Stripped(urls[..n]))
    ensures !Distinct(Stripped(urls))
    decreases |urls| - n
  {
    if n == |urls| {
      assert urls[..n] == urls;
    } else {
      assert urls[..n + 1][..n] == urls[..n];
      assert Stripped(urls[..n + 1])[..n] == Stripped(urls[..n]);
      DuplicatePrefix(urls, n + 1);
    }
  }

  /** An accepted list has the distinct URLs the load balancer's dictionaries need. */
  lemma {:induction false} UniqueUpstreamsAreDistinct(urls: seq<string>)
    requires Distinct(Stripped(urls))
    ensures Distinct(urls)
  {
    if urls != [] {
      var n := |urls| - 1;
      assert Stripped(urls)[..n] == Stripped(urls[..n]);
      UniqueUpstreamsAreDistinct(urls[..n]);
      assert forall i :: 0 <= i < n ==> Stripped(urls)[..n][i] == RStrip(urls[i]);
    }
  }
}
