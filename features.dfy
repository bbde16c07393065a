/**
 * The transcript feature extractor of features.py: five literal phrase and
 * structure detectors over the assistant rows of a transcript, and the
 * per-feature evidence bookkeeping (`record`, `quote_window`).
 *
 * `str.lower` is modelled as ASCII lower-casing (see `Text.Lower`).
 */
module Features {
  import opened Wrappers
  import opened Text
  import opened Turns

  // ---------------------------------------------------------------------------
  // Features and their evidence
  // ---------------------------------------------------------------------------

  datatype FeatureName = Emotion | Relational | Invitation | Planning | Engagement

  /** The feature's key in the features dict. */
  function Key(f: FeatureName): string {
    match f
    case Emotion => "acknowledgement_of_emotion"
    case Relational => "relational_framing"
    case Invitation => "invitation_to_continue"
    case Planning => "offers_of_guidance_or_planning"
    case Engagement => "continued_engagement_offer"
  }

  datatype Evidence = Evidence(turnIndex: Option<int>, quote: string)

  datatype Feature = Feature(present: bool, evidence: seq<Evidence>)

  /** The dict `extract_features` returns: one entry per feature. */
  datatype FeatureSet = FeatureSet(emotion: Feature, relational: Feature, invitation: Feature,
                                   planning: Feature, engagement: Feature)

  function Get(fs: FeatureSet, f: FeatureName): Feature {
    match f
    case Emotion => fs.emotion
    case Relational => fs.relational
    case Invitation => fs.invitation
    case Planning => fs.planning
    case Engagement => fs.engagement
  }

  /** `{"present": False, "evidence": []}` */
  const Absent := Feature(false, [])

  const NoFeatures := FeatureSet(Absent, Absent, Absent, Absent, Absent)

  /** "keep reports tight": the most evidence items one feature keeps. */
  const MaxEvidence := 3

  /** What `record` keeps true of every feature: at most three items, no turn twice, present exactly when there is evidence. */
  predicate WellFormed(f: Feature) {
    |f.evidence| <= MaxEvidence &&
    (forall i, j :: 0 <= i < j < |f.evidence| ==> f.evidence[i].turnIndex != f.evidence[j].turnIndex) &&
    (f.present <==> f.evidence != [])
  }

  // ---------------------------------------------------------------------------
  // Phrase lists (the curly apostrophe is U+2019)
  // ---------------------------------------------------------------------------

  const PlanMarkers: seq<string> := ["\n1.", "\n1)", "\n**1."]

  const SupportPhrases: seq<string> := [
    "i can help", "i\U{2019}m here", "i am here", "i'm here", "i\U{2019}m here to help",
    "i am here to help", "happy to help"]

  const InvitationPhrases: seq<string> := [
    "if you'd like", "if you\U{2019}d like", "if you want", "let me know", "feel free",
    "you can share", "tell me", "if you tell me"]

  const DirectAcknowledgements: seq<string> := [
    "it\U{2019}s understandable to feel", "it's understandable to feel", "it is understandable to feel",
    "that\U{2019}s completely understandable", "that's completely understandable",
    "that\U{2019}s understandable", "that's understandable",
    "i\U{2019}m sorry you\U{2019}re feeling", "i'm sorry you're feeling", "i am sorry you're feeling"]

  const EmotionWords: seq<string> := ["stressed", "stressful", "worried", "anxious", "overwhelmed", "overwhelming"]

  /** The phrases an acknowledgement of emotion is anchored on, in order of preference. */
  const EmotionAnchors: seq<string> := [
    "it\U{2019}s understandable to feel", "it's understandable to feel",
    "that\U{2019}s completely understandable", "that's completely understandable",
    "that\U{2019}s understandable", "that's understandable",
    "i\U{2019}m sorry you\U{2019}re feeling", "i'm sorry you're feeling",
    "stressed", "worried", "anxious", "overwhelmed"]

  const RelationalPhrases: seq<string> := [
    "you're not alone", "you are not alone",
    "you don\U{2019}t have to go through this alone", "you don't have to go through this alone",
    "i\U{2019}m here to help", "i'm here to help", "i am here to help",
    "i\U{2019}m here for you", "i'm here for you", "i am here for you",
    "i can stay with you", "stay with you through this"]

  /** The phrases a continued-engagement offer is anchored on, in order of preference. */
  const EngagementAnchors: seq<string> := [
    "i can help", "i\U{2019}m here to help", "i am here to help", "happy to help",
    "i'm here", "i\U{2019}m here", "i am here"]

  const IfYouFeel := "if you feel"

  // ---------------------------------------------------------------------------
  // Detectors
  // ---------------------------------------------------------------------------

  /**
   * features.py `acknowledges_emotion`: a direct acknowledgement or an
   * emotion word, and in either case no hypothetical "if you feel".
   */
  function AcknowledgesEmotion(text: string): (r: bool)
    ensures r <==> (HasAny(text, DirectAcknowledgements) || HasAny(text, EmotionWords)) && !Contains(text, IfYouFeel)
  {
    if HasAny(text, DirectAcknowledgements) then !Contains(text, IfYouFeel)
    else if HasAny(text, EmotionWords) then !Contains(text, IfYouFeel)
    else false
  }

  /**
   * features.py `looks_like_plan`: a numbered list opener, a dashed list that
   * talks about a step or a plan, or "step by step" in either spelling.
   */
  function LooksLikePlan(text: string): (r: bool)
    ensures r <==> HasAny(text, PlanMarkers) ||
                   (Contains(text, "\n- ") && (Contains(Lower(text), "step") || Contains(Lower(text), "plan"))) ||
                   Contains(Lower(text), "step-by-step") || Contains(Lower(text), "step by step")
  {
    OneOfTwo(Lower(text), "step", "plan");
    OneOfTwo(Lower(text), "step-by-step", "step by step");
    Contains(text, "\n1.") || Contains(text, "\n1)") || Contains(text, "\n**1.") ||
    (Contains(text, "\n- ") && HasAny(Lower(text), ["step", "plan"])) ||
    HasAny(Lower(text), ["step-by-step", "step by step"])
  }

  lemma OneOfTwo(text: string, p: string, q: string)
    ensures HasAny(text, [p, q]) <==> Contains(text, p) || Contains(text, q)
  {
    assert p in [p, q] && q in [p, q];
  }

  /** features.py `has_first_person_support` */
  predicate HasFirstPersonSupport(text: string) {
    HasAny(text, SupportPhrases)
  }

  /** features.py `has_invitation` */
  predicate HasInvitation(text: string) {
    HasAny(text, InvitationPhrases)
  }

  /** The relational, invitation and engagement detectors only look at rows of these phases. */
  predicate Gated(phase: string) {
    Lower(phase) == "relational" || Lower(phase) == "continuation"
  }

  predicate IsGatedFeature(f: FeatureName) {
    f == Relational || f == Invitation || f == Engagement
  }

  /** `first_match(...) or fallback` */
  function OrElse(m: Option<string>, fallback: string): string {
    if m.Some? then m.value else fallback
  }

  // ---------------------------------------------------------------------------
  // quote_window
  // ---------------------------------------------------------------------------

  const Window := 90
  const FallbackLength := 200

  function Min(a: int, b: int): int { if a <= b then a else b }
  function Max(a: int, b: int): int { if a >= b then a else b }

  /**
   * features.py `quote_window`: the text around the first case-insensitive
   * occurrence of `needle`, or the stripped first 200 characters when there
   * is none.
   */
  function QuoteWindow(full: string, needle: string): string {
    var found := Find(Lower(full), Lower(needle));
    if found.None? then Head(full)
    else Excerpt(full, found.value, |needle|)
  }

  /** The stripped first 200 characters (all of the text when it is shorter). */
  function Head(full: string): string {
    Strip(full[..Min(FallbackLength, |full|)])
  }

  /** The stripped text from 90 characters before position `i` to 90 after the `n` characters there, clipped to the text. */
  function Excerpt(full: string, i: nat, n: nat): string
    requires i + n <= |full|
  {
    Strip(full[Max(0, i - Window)..Min(|full|, i + n + Window)])
  }

  /** Without an occurrence of the needle the quote is the stripped first 200 characters. */
  lemma QuoteWindowMissing(full: string, needle: string)
    requires Find(Lower(full), Lower(needle)).None?
    ensures QuoteWindow(full, needle) == Head(full)
  {
  }

  /** The head is the first 200 characters with Python whitespace trimmed from both ends. */
  lemma HeadSpec(full: string)
    ensures |full| <= FallbackLength ==> IsStripOf(Head(full), full)
    ensures |full| > FallbackLength ==> IsStripOf(Head(full), full[..FallbackLength])
  {
    if |full| <= FallbackLength {
      assert full[..Min(FallbackLength, |full|)] == full;
    }
  }

  /** With a first occurrence at `i`, the quote is the excerpt around it. */
  lemma QuoteWindowFound(full: string, needle: string, i: nat)
    requires Find(Lower(full), Lower(needle)) == Some(i)
    ensures i + |needle| <= |full| && Lower(full[i..i + |needle|]) == Lower(needle)
    ensures QuoteWindow(full, needle) == Excerpt(full, i, |needle|)
  {
    LowerSlice(full, i, i + |needle|);
  }

  /** The excerpt is a stripped window reaching at most 90 characters either side of the `n` characters at `i`. */
  lemma ExcerptSpec(full: string, i: nat, n: nat)
    requires i + n <= |full|
    ensures var a, b := Max(0, i - Window), Min(|full|, i + n + Window);
            a <= i && i + n <= b && b - a <= n + 2 * Window && IsStripOf(Excerpt(full, i, n), full[a..b])
  {
  }

  /** An excerpt keeps the `n` characters at `i` whole when they neither start nor end with whitespace. */
  lemma ExcerptHolds(full: string, i: nat, n: nat)
    requires 0 < n && i + n <= |full|
    requires !IsSpace(full[i]) && !IsSpace(full[i + n - 1])
    ensures Contains(Excerpt(full, i, n), full[i..i + n])
  {
    ExcerptSpec(full, i, n);
    StripKeepsWithin(Excerpt(full, i, n), full, Max(0, i - Window), Min(|full|, i + n + Window), i, n);
  }

  /**
   * When the needle occurs and neither starts nor ends with whitespace, the
   * quote still holds the occurrence after trimming.
   */
  lemma QuoteHoldsMatch(full: string, needle: string, i: nat)
    requires Find(Lower(full), Lower(needle)) == Some(i)
    requires needle != [] && !IsSpace(needle[0]) && !IsSpace(needle[|needle| - 1])
    ensures Contains(Lower(QuoteWindow(full, needle)), Lower(needle))
  {
    QuoteWindowFound(full, needle, i);
    ExcerptHoldsNeedle(full, needle, i);
  }

  /** The case-insensitive form of `ExcerptHolds`, for a needle matching the text at `i` up to case. */
  lemma ExcerptHoldsNeedle(full: string, needle: string, i: nat)
    requires needle != [] && !IsSpace(needle[0]) && !IsSpace(needle[|needle| - 1])
    requires i + |needle| <= |full| && Lower(full[i..i + |needle|]) == Lower(needle)
    ensures Contains(Lower(Excerpt(full, i, |needle|)), Lower(needle))
  {
    var n := |needle|;
    var m := full[i..i + n];
    LowerEdges(m, needle);
    ExcerptHolds(full, i, n);
    ContainsLower(Excerpt(full, i, n), m);
  }

  // ---------------------------------------------------------------------------
  // What each detector takes from a row
  // ---------------------------------------------------------------------------

  /** The evidence item quoting `row` around `anchor`. */
  function Quote(row: Row, anchor: string): Evidence {
    Evidence(row.turnIndex, QuoteWindow(row.content, anchor))
  }

  /** Acknowledgement of emotion, on the lower-cased content; anchored on the first of its anchor phrases present. */
  function PickEmotion(row: Row): Option<Evidence> {
    var text := Lower(row.content);
    if AcknowledgesEmotion(text) then
      Some(Quote(row, OrElse(FirstMatch(text, EmotionAnchors), "it\U{2019}s understandable")))
    else None
  }

  /** Guidance or planning, on the original content; anchored on the first numbered-list opener present. */
  function PickPlanning(row: Row): Option<Evidence> {
    if LooksLikePlan(row.content) then
      Some(Quote(row, OrElse(FirstMatch(row.content, PlanMarkers), "step")))
    else None
  }

  /** Relational framing, on relational and continuation rows only. */
  function PickRelational(row: Row): Option<Evidence> {
    if Gated(row.phase) then
      match FirstMatch(Lower(row.content), RelationalPhrases)
      case Some(m) => Some(Quote(row, m))
      case None => None
    else None
  }

  /** Invitation to continue, on relational and continuation rows only. */
  function PickInvitation(row: Row): Option<Evidence> {
    if Gated(row.phase) then
      match FirstMatch(Lower(row.content), InvitationPhrases)
      case Some(m) => Some(Quote(row, m))
      case None => None
    else None
  }

  /** Continued engagement offer, on relational and continuation rows only. */
  function PickEngagement(row: Row): Option<Evidence> {
    var text := Lower(row.content);
    if Gated(row.phase) && HasFirstPersonSupport(text) then
      Some(Quote(row, OrElse(FirstMatch(text, EngagementAnchors), "i can help")))
    else None
  }

  function Picker(f: FeatureName): Row -> Option<Evidence> {
    match f
    case Emotion => PickEmotion
    case Relational => PickRelational
    case Invitation => PickInvitation
    case Planning => PickPlanning
    case Engagement => PickEngagement
  }

  /**
   * When each detector fires: the three gated ones only on relational and
   * continuation rows, and the invitation detector exactly when
   * `has_invitation` holds.
   */
  lemma DetectorConditions(row: Row)
    ensures PickEmotion(row).Some? <==> AcknowledgesEmotion(Lower(row.content))
    ensures PickPlanning(row).Some? <==> LooksLikePlan(row.content)
    ensures PickRelational(row).Some? <==> Gated(row.phase) && HasAny(Lower(row.content), RelationalPhrases)
    ensures PickInvitation(row).Some? <==> Gated(row.phase) && HasInvitation(Lower(row.content))
    ensures PickEngagement(row).Some? <==> Gated(row.phase) && HasFirstPersonSupport(Lower(row.content))
  {
  }

  // ---------------------------------------------------------------------------
  // record
  // ---------------------------------------------------------------------------

  function TurnsOf(ev: seq<Evidence>): set<Option<int>> {
    set e | e in ev :: e.turnIndex
  }

  /**
   * features.py `record`: a turn the feature already has is skipped;
   * otherwise the feature becomes present and the item is appended, and the
   * list is cut back to its first three items.
   */
  function Record(f: Feature, turn: Option<int>, quote: string): (r: Feature)
    ensures turn in TurnsOf(f.evidence) ==> r == f
    ensures turn !in TurnsOf(f.evidence) ==> r.present
    ensures |f.evidence| <= MaxEvidence ==>
              (r.evidence == f.evidence + [Evidence(turn, quote)] <==>
               turn !in TurnsOf(f.evidence) && |f.evidence| < MaxEvidence)
    ensures |f.evidence| <= MaxEvidence ==>
              r.evidence == f.evidence || r.evidence == f.evidence + [Evidence(turn, quote)]
    ensures WellFormed(f) ==> WellFormed(r)
  {
    if turn in TurnsOf(f.evidence) then f
    else
      var ev := f.evidence + [Evidence(turn, quote)];
      assert ev[|f.evidence|].turnIndex == turn;
      assert forall k :: 0 <= k < |f.evidence| ==> f.evidence[k] in f.evidence;
      Feature(true, if |ev| > MaxEvidence then ev[..MaxEvidence] else ev)
  }

  // ---------------------------------------------------------------------------
  // extract_features
  // ---------------------------------------------------------------------------

  /** One feature after scanning `rows` in order, recording what `pick` takes from each row. */
  function Gather(rows: seq<Row>, pick: Row -> Option<Evidence>): Feature {
    if rows == [] then Absent
    else
      var prev := Gather(rows[..|rows| - 1], pick);
      var row := rows[|rows| - 1];
      if row.role == "assistant" then Extend(prev, pick(row)) else prev
  }

  function FeaturesOf(rows: seq<Row>): FeatureSet {
    FeatureSet(Gather(rows, PickEmotion), Gather(rows, PickRelational), Gather(rows, PickInvitation),
               Gather(rows, PickPlanning), Gather(rows, PickEngagement))
  }

  /** One more row: the feature as it was, or with the row's item recorded. */
  lemma GatherSnoc(rows: seq<Row>, i: nat, pick: Row -> Option<Evidence>)
    requires i < |rows|
    ensures Gather(rows[..i + 1], pick) ==
            if rows[i].role == "assistant" then Extend(Gather(rows[..i], pick), pick(rows[i])) else Gather(rows[..i], pick)
  {
    assert rows[..i + 1][..i] == rows[..i];
  }

  /**
   * features.py `extract_features`: the rows are scanned in order, non-assistant
   * rows are skipped, and each detector that fires on a row records it.
   */
  method ExtractFeatures(rows: seq<Row>) returns (features: FeatureSet)
    ensures features == FeaturesOf(rows)
  {
    features := NoFeatures;
    var i := 0;
    while i < |rows|
      invariant 0 <= i <= |rows|
      invariant features == FeaturesOf(rows[..i])
    {
      var row := rows[i];
      GatherSnoc(rows, i, PickEmotion);
      GatherSnoc(rows, i, PickRelational);
      GatherSnoc(rows, i, PickInvitation);
      GatherSnoc(rows, i, PickPlanning);
      GatherSnoc(rows, i, PickEngagement);
      if row.role == "assistant" {
        features := features.(emotion := Extend(features.emotion, PickEmotion(row)));
        features := features.(planning := Extend(features.planning, PickPlanning(row)));
        features := features.(relational := Extend(features.relational, PickRelational(row)));
        features := features.(invitation := Extend(features.invitation, PickInvitation(row)));
        features := features.(engagement := Extend(features.engagement, PickEngagement(row)));
      }
      i := i + 1;
    }
    assert rows[..i] == rows;
  }

  /** features.py `record` for the item a detector took from a row, if any. */
  function Extend(feat: Feature, item: Option<Evidence>): Feature {
    match item
    case None => feat
    case Some(e) => Record(feat, e.turnIndex, e.quote)
  }

  // ---------------------------------------------------------------------------
  // Properties of the extracted features
  // ---------------------------------------------------------------------------

  /** Every feature the extractor returns is well formed: at most three items, distinct turns, present iff evidence. */
  lemma {:induction false} GatherWellFormed(rows: seq<Row>, pick: Row -> Option<Evidence>)
    ensures WellFormed(Gather(rows, pick))
  {
    if rows != [] {
      GatherWellFormed(rows[..|rows| - 1], pick);
    }
  }

  /** A feature no assistant row yields anything for stays absent. */
  lemma {:induction false} GatherSilent(rows: seq<Row>, pick: Row -> Option<Evidence>)
    requires forall k :: 0 <= k < |rows| ==> rows[k].role != "assistant" || pick(rows[k]).None?
    ensures Gather(rows, pick) == Absent
  {
    if rows != [] {
      GatherSilent(rows[..|rows| - 1], pick);
    }
  }

  /** A transcript with no assistant rows gives five absent features. */
  lemma NoAssistantRows(rows: seq<Row>)
    requires forall k :: 0 <= k < |rows| ==> rows[k].role != "assistant"
    ensures FeaturesOf(rows) == NoFeatures
  {
    GatherSilent(rows, PickEmotion);
    GatherSilent(rows, PickRelational);
    GatherSilent(rows, PickInvitation);
    GatherSilent(rows, PickPlanning);
    GatherSilent(rows, PickEngagement);
  }

  /** The gated features stay absent on a transcript with no relational or continuation rows. */
  lemma UngatedRows(rows: seq<Row>)
    requires forall k :: 0 <= k < |rows| ==> !Gated(rows[k].phase)
    ensures FeaturesOf(rows).relational == Absent
    ensures FeaturesOf(rows).invitation == Absent
    ensures FeaturesOf(rows).engagement == Absent
  {
    GatherSilent(rows, PickRelational);
    GatherSilent(rows, PickInvitation);
    GatherSilent(rows, PickEngagement);
  }

  /** Scanning more rows only appends evidence: what the first `i` rows produced is kept, oldest first. */
  lemma {:induction false} GatherPrefix(rows: seq<Row>, i: nat, pick: Row -> Option<Evidence>)
    requires i <= |rows|
    ensures Gather(rows[..i], pick).evidence <= Gather(rows, pick).evidence
    decreases |rows|
  {
    if i < |rows| {
      var init := rows[..|rows| - 1];
      assert rows[..i] == init[..i];
      GatherPrefix(init, i, pick);
      GatherWellFormed(init, pick);
    } else {
      assert rows[..i] == rows;
    }
  }

  /** `ev` was taken by `pick` from the rows at positions `pos`, in transcript order. */
  predicate Sourced(rows: seq<Row>, pick: Row -> Option<Evidence>, ev: seq<Evidence>, pos: seq<nat>) {
    |pos| == |ev| &&
    (forall k :: 0 <= k < |pos| ==>
       pos[k] < |rows| && rows[pos[k]].role == "assistant" && pick(rows[pos[k]]) == Some(ev[k])) &&
    (forall k, l :: 0 <= k < l < |pos| ==> pos[k] < pos[l])
  }

  /**
   * Every evidence item is what the detector took from some row (so an
   * assistant row it fired on, with that row's turn and quote), and the items
   * are in transcript order.
   */
  lemma {:induction false} GatherProvenance(rows: seq<Row>, pick: Row -> Option<Evidence>)
    ensures exists pos :: Sourced(rows, pick, Gather(rows, pick).evidence, pos)
  {
    if rows == [] {
      assert Gather(rows, pick).evidence == [];
      assert Sourced(rows, pick, [], []);
    } else {
      var n := |rows| - 1;
      var init := rows[..n];
      GatherProvenance(init, pick);
      GatherWellFormed(init, pick);
      var prev := Gather(init, pick).evidence;
      var pos :| Sourced(init, pick, prev, pos);
      assert forall k :: 0 <= k < |pos| ==> rows[pos[k]] == init[pos[k]];
      assert Sourced(rows, pick, prev, pos);
      var ev := Gather(rows, pick).evidence;
      if ev != prev {
        assert rows[n].role == "assistant" && pick(rows[n]).Some?;
        var e := pick(rows[n]).value;
        assert ev == prev + [Evidence(e.turnIndex, e.quote)];
        assert Sourced(rows, pick, ev, pos + [n]);
      }
    }
  }

  /**
   * A row a detector fires on is not lost: its turn is among the feature's
   * evidence turns, or the feature already holds its three items.
   */
  lemma FiringRowKept(rows: seq<Row>, pick: Row -> Option<Evidence>, k: nat)
    requires k < |rows| && rows[k].role == "assistant" && pick(rows[k]).Some?
    ensures pick(rows[k]).value.turnIndex in TurnsOf(Gather(rows, pick).evidence) ||
            |Gather(rows, pick).evidence| == MaxEvidence
  {
    var turn := pick(rows[k]).value.turnIndex;
    GatherSnoc(rows, k, pick);
    GatherWellFormed(rows[..k], pick);
    GatherWellFormed(rows, pick);
    GatherPrefix(rows, k + 1, pick);
    var before := Gather(rows[..k], pick).evidence;
    var here := Gather(rows[..k + 1], pick).evidence;
    var all := Gather(rows, pick).evidence;
    assert turn in TurnsOf(here) || |here| == MaxEvidence by {
      if turn !in TurnsOf(before) && |before| < MaxEvidence {
        assert here[|before|].turnIndex == turn;
      }
    }
    if turn in TurnsOf(here) {
      var e :| e in here && e.turnIndex == turn;
      assert e in all;
    }
  }

  /** Some assistant row of the transcript makes `pick` fire. */
  predicate Fires(rows: seq<Row>, pick: Row -> Option<Evidence>) {
    exists k :: 0 <= k < |rows| && rows[k].role == "assistant" && pick(rows[k]).Some?
  }

  /** A feature is present exactly when its detector fires on some assistant row. */
  lemma GatherPresent(rows: seq<Row>, pick: Row -> Option<Evidence>)
    ensures Gather(rows, pick).present <==> Fires(rows, pick)
  {
    GatherWellFormed(rows, pick);
    var ev := Gather(rows, pick).evidence;
    if ev != [] {
      GatherProvenance(rows, pick);
      var pos :| Sourced(rows, pick, ev, pos);
      assert rows[pos[0]].role == "assistant" && pick(rows[pos[0]]).Some?;
    }
    if Fires(rows, pick) {
      var k :| 0 <= k < |rows| && rows[k].role == "assistant" && pick(rows[k]).Some?;
      FiringRowKept(rows, pick, k);
    }
  }
}
