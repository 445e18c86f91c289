/** `get_best_available_format` with the catalog fetch taken out: a pure function of the
    catalog, the requested tier string and the megabyte limit. */
module Resolver {
  import opened Wrappers
  import opened Formats
  import opened Selection

  /** One entry of a tier's priority list: an exact height, or the `'best'` sentinel. */
  datatype Step = AtHeight(h: nat) | Best

  /** The tier strings the resolver tells apart; every other string is `Unrecognised`. */
  datatype Tier = Tier144 | Tier240 | Tier360 | Tier480 | Tier720 | TierBest | TierAudio | Unrecognised

  /** The strings the `if`/`elif` chain names, in table order, followed by `'audio'`. */
  const TierNames: seq<string> := ["144", "240", "360", "480", "720", "best", "audio"]

  /** The name each recognised tier has in the source; `Unrecognised` has none. */
  function TierName(t: Tier): Option<string> {
    match t
    case Tier144 => Some("144")
    case Tier240 => Some("240")
    case Tier360 => Some("360")
    case Tier480 => Some("480")
    case Tier720 => Some("720")
    case TierBest => Some("best")
    case TierAudio => Some("audio")
    case Unrecognised => None
  }

  function ParseTier(tier: string): (r: Tier)
    ensures r == TierAudio <==> tier == "audio"
    ensures r == TierBest <==> tier == "best"
    ensures r == Unrecognised <==> tier !in TierNames
  {
    if tier == "144" then Tier144
    else if tier == "240" then Tier240
    else if tier == "360" then Tier360
    else if tier == "480" then Tier480
    else if tier == "720" then Tier720
    else if tier == "best" then TierBest
    else if tier == "audio" then TierAudio
    else Unrecognised
  }

  /** The height a numeric tier asks for. */
  function TierHeight(t: Tier): Option<nat> {
    match t
    case Tier144 => Some(144)
    case Tier240 => Some(240)
    case Tier360 => Some(360)
    case Tier480 => Some(480)
    case Tier720 => Some(720)
    case _ => None
  }

  /** The fixed per-tier priority table: every tier it names is tried first, and a tier it does
      not name has no list. */
  function TierSteps(t: Tier): (r: seq<Step>)
    ensures TierHeight(t).Some? ==> |r| == 6 && r[0] == AtHeight(TierHeight(t).value)
    ensures t == TierBest ==> |r| == 6 && r[0] == Best
    ensures t == TierAudio || t == Unrecognised ==> r == []
  {
    match t
    case Tier144 => [AtHeight(144), AtHeight(240), AtHeight(360), AtHeight(480), AtHeight(720), Best]
    case Tier240 => [AtHeight(240), AtHeight(144), AtHeight(360), AtHeight(480), AtHeight(720), Best]
    case Tier360 => [AtHeight(360), AtHeight(480), AtHeight(240), AtHeight(720), AtHeight(144), Best]
    case Tier480 => [AtHeight(480), AtHeight(360), AtHeight(720), AtHeight(240), Best, AtHeight(144)]
    case Tier720 => [AtHeight(720), AtHeight(480), Best, AtHeight(360), AtHeight(240), AtHeight(144)]
    case TierBest => [Best, AtHeight(720), AtHeight(480), AtHeight(360), AtHeight(240), AtHeight(144)]
    case _ => []
  }

  /** `quality_priority` for a tier string: any string outside the table has an empty list. */
  function Priority(tier: string): seq<Step> {
    TierSteps(ParseTier(tier))
  }

  /** Every list of the table has six distinct entries that together name each of the five
      heights and `best`; `audio` and unrecognised strings have no list at all. */
  lemma PriorityListsArePermutations(t: Tier)
    ensures t != TierAudio && t != Unrecognised ==>
              && |TierSteps(t)| == 6
              && (forall i, j :: 0 <= i < j < 6 ==> TierSteps(t)[i] != TierSteps(t)[j])
              && (forall x :: x in TierSteps(t) <==>
                    x in {AtHeight(144), AtHeight(240), AtHeight(360), AtHeight(480), AtHeight(720), Best})
    ensures t == TierAudio || t == Unrecognised ==> TierSteps(t) == []
  {
  }

  /** Parsing and naming are inverse: a recognised string is the name of the tier it parses
      to, and each named tier parses back from its name. */
  lemma ParseTierName(tier: string, t: Tier)
    ensures ParseTier(tier) != Unrecognised ==> TierName(ParseTier(tier)) == Some(tier)
    ensures TierName(t).Some? ==> ParseTier(TierName(t).value) == t
  {
  }

  /** The tier strings `'144'` to `'720'` are the numeric tiers, with the height they spell. */
  lemma ParseNumericTiers()
    ensures TierHeight(ParseTier("144")) == Some(144) && TierHeight(ParseTier("240")) == Some(240)
    ensures TierHeight(ParseTier("360")) == Some(360) && TierHeight(ParseTier("480")) == Some(480)
    ensures TierHeight(ParseTier("720")) == Some(720)
    ensures ParseTier("best") == TierBest && ParseTier("audio") == TierAudio
  {
  }

  /** What one entry of the priority walk yields on the video+audio list. */
  function StepResult(video: seq<Format>, step: Step, budget: int): Option<nat> {
    match step
    case AtHeight(h) => FirstAtHeight(video, h, budget, 0)
    case Best => BestFitting(video, budget, HeightKey)
  }

  /** `for quality in quality_priority: ...` — the first entry that yields a format wins. */
  function Walk(video: seq<Format>, steps: seq<Step>, budget: int): (r: Option<nat>)
    ensures r.Some? ==> r.value < |video| && Fits(video[r.value], budget)
    ensures r.None? <==> forall i :: 0 <= i < |steps| ==> StepResult(video, steps[i], budget).None?
  {
    if steps == [] then None
    else
      var here := StepResult(video, steps[0], budget);
      if here.Some? then here else Walk(video, steps[1..], budget)
  }

  /** The walk returns what the first productive entry yields. */
  lemma {:induction false} WalkFirstMatch(video: seq<Format>, steps: seq<Step>, budget: int)
    requires Walk(video, steps, budget).Some?
    ensures exists i :: 0 <= i < |steps| && StepResult(video, steps[i], budget) == Walk(video, steps, budget)
                        && forall j :: 0 <= j < i ==> StepResult(video, steps[j], budget).None?
  {
    if StepResult(video, steps[0], budget).None? {
      WalkFirstMatch(video, steps[1..], budget);
      var i :| 0 <= i < |steps[1..]| && StepResult(video, steps[1..][i], budget) == Walk(video, steps[1..], budget)
               && forall j :: 0 <= j < i ==> StepResult(video, steps[1..][j], budget).None?;
      assert StepResult(video, steps[i + 1], budget) == Walk(video, steps, budget);
      assert forall j :: 0 <= j < i + 1 ==> StepResult(video, steps[j], budget).None? by {
        forall j | 0 <= j < i + 1 ensures StepResult(video, steps[j], budget).None? {
          if j > 0 { assert steps[j] == steps[1..][j - 1]; }
        }
      }
    }
  }

  /** Entries after a `best` entry are never consulted with any effect: if `best` finds nothing,
      no format fits, and then no exact height can match either. */
  lemma {:induction false} StepsAfterBestUnreachable(video: seq<Format>, before: seq<Step>, after: seq<Step>, budget: int)
    ensures Walk(video, before + [Best] + after, budget) == Walk(video, before + [Best], budget)
    decreases |before|
  {
    if before == [] {
      assert before + [Best] + after == [Best] + after;
      assert ([Best] + after)[1..] == after;
      if BestFitting(video, budget, HeightKey).None? {
        forall i | 0 <= i < |after| ensures StepResult(video, after[i], budget).None? {
          match after[i]
          case AtHeight(h) => NoFitNoHeight(video, h, budget);
          case Best =>
        }
      }
    } else {
      assert (before + [Best] + after)[1..] == before[1..] + [Best] + after;
      assert (before + [Best])[1..] == before[1..] + [Best];
      StepsAfterBestUnreachable(video, before[1..], after, budget);
    }
  }

  /** In the table, the entries listed after `best` (144 for tier 480; 360, 240 and 144 for
      tier 720; every height for tier best) are dead. */
  lemma TrailingEntriesDead(video: seq<Format>, budget: int)
    ensures Walk(video, TierSteps(Tier480), budget)
            == Walk(video, [AtHeight(480), AtHeight(360), AtHeight(720), AtHeight(240), Best], budget)
    ensures Walk(video, TierSteps(Tier720), budget) == Walk(video, [AtHeight(720), AtHeight(480), Best], budget)
    ensures Walk(video, TierSteps(TierBest), budget) == Walk(video, [Best], budget)
  {
    TrailingEntriesDead480(video, budget);
    TrailingEntriesDead720(video, budget);
    TrailingEntriesDeadBest(video, budget);
  }

  /** Tier 480: the trailing 144 is dead. */
  lemma TrailingEntriesDead480(video: seq<Format>, budget: int)
    ensures Walk(video, TierSteps(Tier480), budget)
            == Walk(video, [AtHeight(480), AtHeight(360), AtHeight(720), AtHeight(240), Best], budget)
  {
    var before := [AtHeight(480), AtHeight(360), AtHeight(720), AtHeight(240)];
    StepsAfterBestUnreachable(video, before, [AtHeight(144)], budget);
    assert before + [Best] + [AtHeight(144)] == TierSteps(Tier480);
    assert before + [Best] == [AtHeight(480), AtHeight(360), AtHeight(720), AtHeight(240), Best];
  }

  /** Tier 720: the trailing 360, 240 and 144 are dead. */
  lemma TrailingEntriesDead720(video: seq<Format>, budget: int)
    ensures Walk(video, TierSteps(Tier720), budget) == Walk(video, [AtHeight(720), AtHeight(480), Best], budget)
  {
    var before := [AtHeight(720), AtHeight(480)];
    StepsAfterBestUnreachable(video, before, [AtHeight(360), AtHeight(240), AtHeight(144)], budget);
    assert before + [Best] + [AtHeight(360), AtHeight(240), AtHeight(144)] == TierSteps(Tier720);
    assert before + [Best] == [AtHeight(720), AtHeight(480), Best];
  }

  /** Tier best: every height after the sentinel is dead. */
  lemma TrailingEntriesDeadBest(video: seq<Format>, budget: int)
    ensures Walk(video, TierSteps(TierBest), budget) == Walk(video, [Best], budget)
  {
    var none: seq<Step> := [];
    StepsAfterBestUnreachable(video, none, [AtHeight(720), AtHeight(480), AtHeight(360), AtHeight(240), AtHeight(144)], budget);
    assert none + [Best] + [AtHeight(720), AtHeight(480), AtHeight(360), AtHeight(240), AtHeight(144)] == TierSteps(TierBest);
    assert none + [Best] == [Best];
  }

  /** The format record the resolver settles on for a parsed tier. */
  function ChooseTier(catalog: seq<Format>, t: Tier, limitMb: nat): (r: Option<Format>)
    ensures r.Some? ==> r.value in catalog
    ensures t == TierAudio && r.Some? ==> IsAudioOnly(r.value)
    ensures t != TierAudio && r.Some? ==> HasVideoAndAudio(r.value)
  {
    var budget := Budget(limitMb);
    var video := VideoFormats(catalog);
    var audio := AudioFormats(catalog);
    if t == TierAudio then
      match BestFitting(audio, budget, AbrKey)
      case Some(k) => Some(audio[k])
      case None => if |audio| > 0 then Some(audio[0]) else None
    else
      match Walk(video, TierSteps(t), budget)
      case Some(k) => Some(video[k])
      case None => if |video| > 0 then Some(video[0]) else None
  }

  /** The format record `get_best_available_format` settles on for a tier string. */
  function Choose(catalog: seq<Format>, tier: string, limitMb: nat): (r: Option<Format>)
    ensures r.Some? ==> r.value in catalog
    ensures tier == "audio" && r.Some? ==> IsAudioOnly(r.value)
    ensures tier != "audio" && r.Some? ==> HasVideoAndAudio(r.value)
  {
    ChooseTier(catalog, ParseTier(tier), limitMb)
  }

  /** `get_best_available_format`: the `format_id` of the chosen record. */
  function Resolve(catalog: seq<Format>, tier: string, limitMb: nat): (r: Option<string>)
    ensures r.None? <==> Choose(catalog, tier, limitMb).None?
    ensures r.Some? ==> r.value == Choose(catalog, tier, limitMb).value.id
    ensures r.Some? ==> exists i :: 0 <= i < |catalog| && catalog[i].id == r.value
  {
    match Choose(catalog, tier, limitMb)
    case Some(f) =>
      assert exists i :: 0 <= i < |catalog| && catalog[i] == f;
      Some(f.id)
    case None => None
  }

  /** Audio tier, budget respected: when the `k`-th audio-only format is the first one of
      maximal bitrate among those that fit, it is the result. (`BestFitting` shows that such a
      `k` exists whenever some audio-only format fits.) */
  lemma AudioPicksHighestBitrate(catalog: seq<Format>, limitMb: nat, k: nat)
    requires IsFirstMax(AudioFormats(catalog), Budget(limitMb), AbrKey, k)
    ensures Choose(catalog, "audio", limitMb) == Some(AudioFormats(catalog)[k])
  {
  }

  /** Audio tier, budget relaxed: when no audio-only format fits, the result is the first
      audio-only format of the catalog, whatever its size. */
  lemma AudioRelaxesBudget(catalog: seq<Format>, limitMb: nat)
    requires NoneFit(AudioFormats(catalog), Budget(limitMb))
    requires |AudioFormats(catalog)| > 0
    ensures exists k :: 0 <= k < |catalog| && IsAudioOnly(catalog[k])
                        && (forall j :: 0 <= j < k ==> !IsAudioOnly(catalog[j]))
                        && Choose(catalog, "audio", limitMb) == Some(catalog[k])
  {
    FilterHead(catalog, IsAudioOnly);
  }

  /** The audio tier has no result exactly when the catalog has no audio-only format. */
  lemma AudioNoneIffNoAudio(catalog: seq<Format>, limitMb: nat)
    ensures Choose(catalog, "audio", limitMb).None? <==> forall i :: 0 <= i < |catalog| ==> !IsAudioOnly(catalog[i])
  {
    FilterEmpty(catalog, IsAudioOnly);
  }

  /** Exact-tier preference: for tiers 144 to 720, when the `k`-th video+audio format is the
      first of exactly the requested height that fits, it is the result and nothing else is. */
  lemma ExactTierPreferred(catalog: seq<Format>, tier: string, limitMb: nat, h: nat, k: nat)
    requires TierHeight(ParseTier(tier)) == Some(h)
    requires k < |VideoFormats(catalog)| && MatchesHeight(VideoFormats(catalog)[k], h, Budget(limitMb))
    requires forall j :: 0 <= j < k ==> !MatchesHeight(VideoFormats(catalog)[j], h, Budget(limitMb))
    ensures Choose(catalog, tier, limitMb) == Some(VideoFormats(catalog)[k])
  {
    var video := VideoFormats(catalog);
    var steps := TierSteps(ParseTier(tier));
    assert ParseTier(tier) != TierAudio;
    assert steps[0] == AtHeight(h);
    assert FirstAtHeight(video, h, Budget(limitMb), 0) == Some(k);
    assert Walk(video, steps, Budget(limitMb)) == Some(k);
  }

  /** The `'best'` tier: when the `k`-th video+audio format is the first of maximal height
      among those that fit, it is the result. */
  lemma BestTierPicksTallest(catalog: seq<Format>, limitMb: nat, k: nat)
    requires IsFirstMax(VideoFormats(catalog), Budget(limitMb), HeightKey, k)
    ensures Choose(catalog, "best", limitMb) == Some(VideoFormats(catalog)[k])
  {
  }

  /** Last resort: when the priority walk yields nothing, a video tier returns the first
      video+audio format of the catalog, whatever its size, or nothing when there is none. */
  lemma LastResort(catalog: seq<Format>, tier: string, limitMb: nat)
    requires tier != "audio"
    requires Walk(VideoFormats(catalog), Priority(tier), Budget(limitMb)).None?
    ensures |VideoFormats(catalog)| > 0 ==>
              exists k :: 0 <= k < |catalog| && HasVideoAndAudio(catalog[k])
                          && (forall j :: 0 <= j < k ==> !HasVideoAndAudio(catalog[j]))
                          && Choose(catalog, tier, limitMb) == Some(catalog[k])
    ensures |VideoFormats(catalog)| == 0 ==> Choose(catalog, tier, limitMb).None?
  {
    if |VideoFormats(catalog)| > 0 {
      FilterHead(catalog, HasVideoAndAudio);
    }
  }

  /** A video tier has no result exactly when the catalog has no video+audio format. */
  lemma VideoNoneIffNoVideo(catalog: seq<Format>, tier: string, limitMb: nat)
    requires tier != "audio"
    ensures Choose(catalog, tier, limitMb).None? <==> forall i :: 0 <= i < |catalog| ==> !HasVideoAndAudio(catalog[i])
  {
    FilterEmpty(catalog, HasVideoAndAudio);
  }

  /** A tier string the table does not name skips the walk and goes straight to the last
      resort. */
  lemma UnknownTierFallsThrough(catalog: seq<Format>, tier: string, limitMb: nat)
    requires tier !in TierNames
    ensures Choose(catalog, tier, limitMb)
            == (if |VideoFormats(catalog)| > 0 then Some(VideoFormats(catalog)[0]) else None)
  {
  }

  /** Whenever the priority walk of a video tier yields a format, that format is the result,
      and it fits the budget. */
  lemma WalkResultFits(catalog: seq<Format>, tier: string, limitMb: nat)
    requires tier != "audio"
    requires Walk(VideoFormats(catalog), Priority(tier), Budget(limitMb)).Some?
    ensures Choose(catalog, tier, limitMb)
            == Some(VideoFormats(catalog)[Walk(VideoFormats(catalog), Priority(tier), Budget(limitMb)).value])
    ensures Fits(Choose(catalog, tier, limitMb).value, Budget(limitMb))
  {
  }
}
