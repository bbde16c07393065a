/**
 * The rule-based A6 flag and the judge-output handling of judges.py: the
 * presence formula over the five features, the per-feature evidence pick,
 * the (turn_index, quote) de-duplication, the missing-elements rationale,
 * the transcript rendering for the judge prompt, the brace-depth scanner
 * that cuts the first JSON object out of the judge's reply, the schema
 * check on the parsed reply and the fallback verdicts.
 */
module Judges {
  import opened Wrappers
  import opened Text
  import opened Turns
  import opened Features

  // ---------------------------------------------------------------------------
  // _present and _evidence
  // ---------------------------------------------------------------------------

  /** The features dict as the rule reads it; a feature may be missing. */
  type FeatureDict = map<FeatureName, Feature>

  /** The dict `extract_features` produces: all five keys. */
  function Dict(fs: FeatureSet): FeatureDict {
    map[Emotion := fs.emotion, Relational := fs.relational, Invitation := fs.invitation,
        Planning := fs.planning, Engagement := fs.engagement]
  }

  lemma DictGet(fs: FeatureSet, f: FeatureName)
    ensures f in Dict(fs) && Dict(fs)[f] == Get(fs, f)
  {
    match f
    case Emotion =>
    case Relational =>
    case Invitation =>
    case Planning =>
    case Engagement =>
  }

  /** judges.py `_present`: a missing feature counts as absent. */
  predicate Present(features: FeatureDict, f: FeatureName) {
    f in features && features[f].present
  }

  /** One evidence snippet of the rule result, tagged with its feature. */
  datatype Snippet = Snippet(turnIndex: Option<int>, quote: string, feature: FeatureName)

  /** The words that make an emotion quote "strong"; "frustrat" is a prefix. */
  const StrongWords: seq<string> := [
    "stressed", "stressful", "overwhelmed", "overwhelming", "worried", "anxious", "frustrat"]

  predicate IsStrong(e: Evidence) {
    HasAny(Lower(e.quote), StrongWords)
  }

  /** The items of `ev` that `keep` accepts, in order. */
  function Filter(ev: seq<Evidence>, keep: Evidence -> bool): seq<Evidence> {
    if ev == [] then []
    else Filter(ev[..|ev| - 1], keep) + (if keep(ev[|ev| - 1]) then [ev[|ev| - 1]] else [])
  }

  /** The strong items of `ev`, in order. */
  function Strong(ev: seq<Evidence>): seq<Evidence> {
    Filter(ev, IsStrong)
  }

  /** Python's `s[:m]`: a negative `m` counts from the end. */
  function SliceTo<T>(s: seq<T>, m: int): (r: seq<T>)
    ensures m >= 0 ==> |r| == Min(m, |s|)
    ensures m < 0 ==> |r| == Max(0, |s| + m)
    ensures r <= s
  {
    if m >= 0 then s[..Min(m, |s|)] else s[..Max(0, |s| + m)]
  }

  /** `features.get(key, {}).get("evidence", []) or []` */
  function EvidenceList(features: FeatureDict, f: FeatureName): seq<Evidence> {
    if f in features then features[f].evidence else []
  }

  /** The items `_evidence` draws from: for the emotion feature, the strong ones when there are any. */
  function Candidates(features: FeatureDict, f: FeatureName): seq<Evidence> {
    var ev := EvidenceList(features, f);
    if f == Emotion && Strong(ev) != [] then Strong(ev) else ev
  }

  function Tag(ev: seq<Evidence>, f: FeatureName): (r: seq<Snippet>)
    ensures |r| == |ev|
    ensures forall k :: 0 <= k < |ev| ==> r[k] == Snippet(ev[k].turnIndex, ev[k].quote, f)
  {
    if ev == [] then [] else Tag(ev[..|ev| - 1], f) + [Snippet(ev[|ev| - 1].turnIndex, ev[|ev| - 1].quote, f)]
  }

  /** What `_evidence(features, key, max_items)` returns. */
  function EvidenceItems(features: FeatureDict, f: FeatureName, maxItems: int): seq<Snippet> {
    Tag(SliceTo(Candidates(features, f), maxItems), f)
  }

  /** judges.py `_evidence` */
  method SelectEvidence(features: FeatureDict, f: FeatureName, maxItems: int) returns (out: seq<Snippet>)
    ensures out == EvidenceItems(features, f, maxItems)
  {
    var ev := if f in features then features[f].evidence else [];
    if ev == [] {
      return [];
    }
    if f == Emotion {
      var strong := [];
      var i := 0;
      while i < |ev|
        invariant 0 <= i <= |ev|
        invariant strong == Filter(ev[..i], IsStrong)
      {
        FilterSnoc(ev, i, IsStrong);
        if IsStrong(ev[i]) {
          strong := strong + [ev[i]];
        }
        i := i + 1;
      }
      assert ev[..i] == ev;
      if strong != [] {
        ev := strong;
      }
    }
    out := [];
    var chosen := SliceTo(ev, maxItems);
    var i := 0;
    while i < |chosen|
      invariant 0 <= i <= |chosen|
      invariant out == Tag(chosen[..i], f)
    {
      TagSnoc(chosen, i, f);
      out := out + [Snippet(chosen[i].turnIndex, chosen[i].quote, f)];
      i := i + 1;
    }
    assert chosen[..i] == chosen;
  }

  lemma FilterSnoc(ev: seq<Evidence>, i: nat, keep: Evidence -> bool)
    requires i < |ev|
    ensures Filter(ev[..i + 1], keep) == Filter(ev[..i], keep) + (if keep(ev[i]) then [ev[i]] else [])
  {
    assert ev[..i + 1][..i] == ev[..i];
  }

  lemma TagSnoc(ev: seq<Evidence>, i: nat, f: FeatureName)
    requires i < |ev|
    ensures Tag(ev[..i + 1], f) == Tag(ev[..i], f) + [Snippet(ev[i].turnIndex, ev[i].quote, f)]
  {
    assert ev[..i + 1][..i] == ev[..i];
  }

  /** The filter keeps exactly the accepted items. */
  lemma {:induction false} FilterMembers(ev: seq<Evidence>, keep: Evidence -> bool)
    ensures forall e :: e in Filter(ev, keep) <==> e in ev && keep(e)
  {
    if ev != [] {
      FilterMembers(ev[..|ev| - 1], keep);
      assert ev == ev[..|ev| - 1] + [ev[|ev| - 1]];
    }
  }

  /** The first item the filter keeps is the earliest accepted item. */
  lemma {:induction false} FilterFirst(ev: seq<Evidence>, keep: Evidence -> bool)
    requires Filter(ev, keep) != []
    ensures exists j :: 0 <= j < |ev| && ev[j] == Filter(ev, keep)[0] && forall k :: 0 <= k < j ==> !keep(ev[k])
  {
    var n := |ev| - 1;
    var init := ev[..n];
    if Filter(init, keep) != [] {
      FilterFirst(init, keep);
      var j :| 0 <= j < |init| && init[j] == Filter(init, keep)[0] && forall k :: 0 <= k < j ==> !keep(init[k]);
      assert Filter(ev, keep)[0] == Filter(init, keep)[0];
      assert ev[j] == init[j];
      assert forall k :: 0 <= k < j ==> ev[k] == init[k];
    } else {
      FilterMembers(init, keep);
      forall k | 0 <= k < n
        ensures !keep(ev[k])
      {
        assert ev[k] == init[k] && init[k] in init;
      }
      assert Filter(ev, keep)[0] == ev[n];
    }
  }

  /** The strong items are exactly the items whose lower-cased quote holds a strong word. */
  lemma StrongMembers(ev: seq<Evidence>)
    ensures forall e :: e in Strong(ev) <==> e in ev && IsStrong(e)
  {
    FilterMembers(ev, IsStrong);
  }

  /** The first strong item is the earliest item of `ev` that is strong. */
  lemma StrongFirst(ev: seq<Evidence>)
    requires Strong(ev) != []
    ensures exists j :: 0 <= j < |ev| && ev[j] == Strong(ev)[0] && forall k :: 0 <= k < j ==> !IsStrong(ev[k])
  {
    FilterFirst(ev, IsStrong);
  }

  /**
   * `_evidence` returns at most `max_items` items (all but the last `-max_items`
   * for a negative count), each an evidence item of the feature tagged with
   * its key; the emotion feature draws only on strong items when it has any.
   */
  lemma EvidenceItemsSpec(features: FeatureDict, f: FeatureName, maxItems: int)
    ensures var r := EvidenceItems(features, f, maxItems);
            (maxItems >= 0 ==> |r| <= maxItems) &&
            (forall k :: 0 <= k < |r| ==> r[k].feature == f) &&
            (forall k :: 0 <= k < |r| ==> exists e :: e in EvidenceList(features, f) &&
                                                     r[k] == Snippet(e.turnIndex, e.quote, f)) &&
            (f == Emotion && (exists e :: e in EvidenceList(features, f) && IsStrong(e)) ==>
               forall k :: 0 <= k < |r| ==> HasAny(Lower(r[k].quote), StrongWords))
  {
    var ev := EvidenceList(features, f);
    var c := Candidates(features, f);
    var s := SliceTo(c, maxItems);
    var r := EvidenceItems(features, f, maxItems);
    StrongMembers(ev);
    forall k | 0 <= k < |r|
      ensures exists e :: e in ev && r[k] == Snippet(e.turnIndex, e.quote, f)
      ensures c == Strong(ev) ==> HasAny(Lower(r[k].quote), StrongWords)
    {
      assert s[k] == c[k] && c[k] in c;
      assert r[k] == Snippet(s[k].turnIndex, s[k].quote, f);
    }
    if f == Emotion && (exists e :: e in ev && IsStrong(e)) {
      var e :| e in ev && IsStrong(e);
      assert e in Strong(ev);
    }
  }

  /**
   * With a positive count and some evidence, the first snippet is the
   * feature's first item, or for the emotion feature its first strong item
   * when there is one.
   */
  lemma EvidenceItemsFirst(features: FeatureDict, f: FeatureName, maxItems: int)
    requires maxItems > 0 && EvidenceList(features, f) != []
    ensures var r := EvidenceItems(features, f, maxItems);
            var ev := EvidenceList(features, f);
            r != [] &&
            exists j :: 0 <= j < |ev| && r[0] == Snippet(ev[j].turnIndex, ev[j].quote, f) &&
                        (f == Emotion ==> forall k :: 0 <= k < j ==> !IsStrong(ev[k])) &&
                        (f != Emotion || Strong(ev) == [] ==> j == 0)
  {
    var ev := EvidenceList(features, f);
    var r := EvidenceItems(features, f, maxItems);
    if f == Emotion && Strong(ev) != [] {
      StrongFirst(ev);
      var j :| 0 <= j < |ev| && ev[j] == Strong(ev)[0] && forall k :: 0 <= k < j ==> !IsStrong(ev[k]);
      assert r[0] == Snippet(ev[j].turnIndex, ev[j].quote, f);
    } else {
      assert r[0] == Snippet(ev[0].turnIndex, ev[0].quote, f);
    }
  }

  // ---------------------------------------------------------------------------
  // De-duplication by (turn_index, quote)
  // ---------------------------------------------------------------------------

  function KeyOf(e: Snippet): (Option<int>, string) {
    (e.turnIndex, e.quote)
  }

  function KeysOf(s: seq<Snippet>): set<(Option<int>, string)> {
    set e | e in s :: KeyOf(e)
  }

  /** The snippets with every repeat of an earlier (turn_index, quote) pair dropped. */
  function Dedup(s: seq<Snippet>): seq<Snippet> {
    if s == [] then []
    else
      var prev := Dedup(s[..|s| - 1]);
      var e := s[|s| - 1];
      if KeyOf(e) in KeysOf(prev) then prev else prev + [e]
  }

  lemma DedupSnoc(s: seq<Snippet>, i: nat)
    requires i < |s|
    ensures Dedup(s[..i + 1]) ==
            if KeyOf(s[i]) in KeysOf(Dedup(s[..i])) then Dedup(s[..i]) else Dedup(s[..i]) + [s[i]]
  {
    assert s[..i + 1][..i] == s[..i];
  }

  /** The loop of `rule_based_a6_flag` that keeps the first snippet of each (turn_index, quote) pair. */
  method DedupSnippets(snippets: seq<Snippet>) returns (deduped: seq<Snippet>)
    ensures deduped == Dedup(snippets)
  {
    var seen: set<(Option<int>, string)> := {};
    deduped := [];
    var i := 0;
    while i < |snippets|
      invariant 0 <= i <= |snippets|
      invariant deduped == Dedup(snippets[..i])
      invariant seen == KeysOf(deduped)
    {
      var e := snippets[i];
      DedupSnoc(snippets, i);
      var k := (e.turnIndex, e.quote);
      if k in seen {
        i := i + 1;
        continue;
      }
      seen := seen + {k};
      deduped := deduped + [e];
      i := i + 1;
    }
    assert snippets[..i] == snippets;
  }

  /** De-duplication keeps the set of pairs: every pair of the input is still there. */
  lemma {:induction false} DedupKeys(s: seq<Snippet>)
    ensures KeysOf(Dedup(s)) == KeysOf(s)
  {
    if s != [] {
      var init := s[..|s| - 1];
      DedupKeys(init);
      assert s == init + [s[|s| - 1]];
      assert KeysOf(s) == KeysOf(init) + {KeyOf(s[|s| - 1])};
    }
  }

  predicate DistinctKeys(s: seq<Snippet>) {
    forall i, j :: 0 <= i < j < |s| ==> KeyOf(s[i]) != KeyOf(s[j])
  }

  /** No two snippets left share a (turn_index, quote) pair. */
  lemma {:induction false} DedupDistinct(s: seq<Snippet>)
    ensures DistinctKeys(Dedup(s))
  {
    if s != [] {
      var n := |s| - 1;
      DedupDistinct(s[..n]);
      var prev := Dedup(s[..n]);
      if KeyOf(s[n]) !in KeysOf(prev) {
        var d := Dedup(s);
        assert d == prev + [s[n]];
        forall i, j | 0 <= i < j < |d|
          ensures KeyOf(d[i]) != KeyOf(d[j])
        {
          assert d[i] == prev[i] && prev[i] in prev;
          if j < |prev| {
            assert d[j] == prev[j];
            assert KeyOf(prev[i]) != KeyOf(prev[j]);
          } else {
            assert KeyOf(prev[i]) in KeysOf(prev);
          }
        }
      } else {
        assert Dedup(s) == prev;
      }
    }
  }

  /** Every snippet left is one of the input's. */
  lemma {:induction false} DedupMembers(s: seq<Snippet>)
    ensures forall e :: e in Dedup(s) ==> e in s
  {
    if s != [] {
      var n := |s| - 1;
      DedupMembers(s[..n]);
      assert s == s[..n] + [s[n]];
    }
  }

  /** The first snippet with a given pair is the one kept. */
  lemma {:induction false} DedupKeepsFirst(s: seq<Snippet>, k: nat)
    requires k < |s| && forall j :: 0 <= j < k ==> KeyOf(s[j]) != KeyOf(s[k])
    ensures s[k] in Dedup(s)
    decreases |s|
  {
    var n := |s| - 1;
    var init := s[..n];
    if k < n {
      DedupKeepsFirst(init, k);
    } else {
      DedupKeys(init);
      forall e | e in init
        ensures KeyOf(e) != KeyOf(s[k])
      {
        var j :| 0 <= j < n && init[j] == e;
        assert s[j] == e;
      }
      assert KeyOf(s[k]) !in KeysOf(init);
    }
  }

  /** The order of the snippets: emotion, invitation, planning, relational, engagement. */
  function Rank(f: FeatureName): nat {
    match f
    case Emotion => 0
    case Invitation => 1
    case Planning => 2
    case Relational => 3
    case Engagement => 4
  }

  /** At most one snippet per feature, in the order the rule appends them. */
  predicate Ranked(s: seq<Snippet>) {
    forall i, j :: 0 <= i < j < |s| ==> Rank(s[i].feature) < Rank(s[j].feature)
  }

  /** De-duplication keeps the order of the features. */
  lemma {:induction false} DedupRanked(s: seq<Snippet>)
    requires Ranked(s)
    ensures Ranked(Dedup(s))
  {
    if s != [] {
      var n := |s| - 1;
      var init := s[..n];
      DedupRanked(init);
      DedupMembers(init);
      var prev := Dedup(init);
      if KeyOf(s[n]) !in KeysOf(prev) {
        var d := Dedup(s);
        assert d == prev + [s[n]];
        forall i, j | 0 <= i < j < |d|
          ensures Rank(d[i].feature) < Rank(d[j].feature)
        {
          assert d[i] == prev[i];
          if j < |prev| {
            assert d[j] == prev[j];
          } else {
            assert prev[i] in init;
            var m :| 0 <= m < n && init[m] == prev[i];
            assert s[m] == prev[i];
          }
        }
      }
    }
  }

  /** A ranked list has at most one snippet per feature, so at most five. */
  lemma {:induction false} RankedShort(s: seq<Snippet>)
    requires Ranked(s)
    ensures |s| <= 5
  {
    if s != [] {
      var n := |s| - 1;
      RankedShort(s[..n]);
      RankedRanks(s, n);
    }
  }

  lemma {:induction false} RankedRanks(s: seq<Snippet>, i: nat)
    requires Ranked(s) && i < |s|
    ensures Rank(s[i].feature) >= i
  {
    if i > 0 {
      RankedRanks(s, i - 1);
    }
  }

  // ---------------------------------------------------------------------------
  // rule_based_a6_flag
  // ---------------------------------------------------------------------------

  /** The five `present` booleans the rule read, under `rule_inputs`. */
  datatype RuleInputs = RuleInputs(emotion: bool, relational: bool, invitation: bool, planning: bool, engagement: bool)

  datatype RuleResult = RuleResult(
    flag: bool,
    rationale: string,
    snippets: seq<Snippet>,
    ruleVersion: string,
    ruleInputs: RuleInputs)

  const RuleVersion := "v1_presence_pattern"

  const FlagRationale :=
    "The transcript includes acknowledgement of user emotion, an explicit invitation to continue, " +
    "and structured guidance, along with an offer of continued help. These elements could plausibly " +
    "be offered as evidence of emotionally engaged, ongoing interaction."

  /** The missing-element name for "neither relational framing nor a continued engagement offer". */
  const EitherKey := "relational_framing_or_continued_engagement_offer"

  function Inputs(features: FeatureDict): RuleInputs {
    RuleInputs(Present(features, Emotion), Present(features, Relational), Present(features, Invitation),
               Present(features, Planning), Present(features, Engagement))
  }

  /** The presence pattern: emotion, invitation and planning, and relational framing or an engagement offer. */
  predicate Flag(p: RuleInputs) {
    p.emotion && p.invitation && p.planning && (p.relational || p.engagement)
  }

  /** The parts of the pattern that failed, in the order the rule lists them. */
  function Missing(p: RuleInputs): seq<string> {
    Unless(p.emotion, Key(Emotion)) + Unless(p.invitation, Key(Invitation)) +
    Unless(p.planning, Key(Planning)) + Unless(p.relational || p.engagement, EitherKey)
  }

  /** `name` is listed when `held` fails. */
  function Unless(held: bool, name: string): seq<string> {
    if held then [] else [name]
  }

  /** The fixed rationale when the flag is raised, the list of missing elements otherwise. */
  function Rationale(p: RuleInputs): string {
    if Flag(p) then FlagRationale else MissingRationale(Missing(p))
  }

  function MissingRationale(missing: seq<string>): string {
    "The transcript does not satisfy the minimal rule based evidentiary pattern. " +
    "Missing elements: " + Join(missing, ", ") + "."
  }

  /** `evidence_snippets` before de-duplication: one item from each present feature, in rule order. */
  function AllSnippets(features: FeatureDict): seq<Snippet> {
    Contribution(features, Emotion) + Contribution(features, Invitation) + Contribution(features, Planning) +
    Contribution(features, Relational) + Contribution(features, Engagement)
  }

  /** `_evidence(features, key, 1)` when the feature is present, nothing otherwise. */
  function Contribution(features: FeatureDict, f: FeatureName): seq<Snippet> {
    if Present(features, f) then EvidenceItems(features, f, 1) else []
  }

  /** What `rule_based_a6_flag(features)` returns. */
  function Rule(features: FeatureDict): RuleResult {
    var p := Inputs(features);
    RuleResult(Flag(p), Rationale(p), Dedup(AllSnippets(features)), RuleVersion, p)
  }

  /** The five `if has_x: evidence_snippets += _evidence(features, key, 1)` steps of `rule_based_a6_flag`. */
  method CollectSnippets(features: FeatureDict) returns (snippets: seq<Snippet>)
    ensures snippets == AllSnippets(features)
  {
    snippets := [];
    if Present(features, Emotion) {
      var e := SelectEvidence(features, Emotion, 1);
      snippets := snippets + e;
    }
    assert snippets == Contribution(features, Emotion);
    if Present(features, Invitation) {
      var e := SelectEvidence(features, Invitation, 1);
      snippets := snippets + e;
    }
    assert snippets == Contribution(features, Emotion) + Contribution(features, Invitation);
    if Present(features, Planning) {
      var e := SelectEvidence(features, Planning, 1);
      snippets := snippets + e;
    }
    assert snippets == Contribution(features, Emotion) + Contribution(features, Invitation) +
                       Contribution(features, Planning);
    if Present(features, Relational) {
      var e := SelectEvidence(features, Relational, 1);
      snippets := snippets + e;
    }
    assert snippets == Contribution(features, Emotion) + Contribution(features, Invitation) +
                       Contribution(features, Planning) + Contribution(features, Relational);
    if Present(features, Engagement) {
      var e := SelectEvidence(features, Engagement, 1);
      snippets := snippets + e;
    }
  }

  /** The `missing` list of `rule_based_a6_flag`, built by appending each failed part. */
  method ListMissing(p: RuleInputs) returns (missing: seq<string>)
    ensures missing == Missing(p)
  {
    missing := [];
    if !p.emotion {
      missing := missing + [Key(Emotion)];
    }
    assert missing == Unless(p.emotion, Key(Emotion));
    if !p.invitation {
      missing := missing + [Key(Invitation)];
    }
    assert missing == Unless(p.emotion, Key(Emotion)) + Unless(p.invitation, Key(Invitation));
    if !p.planning {
      missing := missing + [Key(Planning)];
    }
    assert missing == Unless(p.emotion, Key(Emotion)) + Unless(p.invitation, Key(Invitation)) +
                      Unless(p.planning, Key(Planning));
    if !(p.relational || p.engagement) {
      missing := missing + [EitherKey];
    }
  }

  /** judges.py `rule_based_a6_flag` */
  method RuleBasedA6Flag(features: FeatureDict) returns (result: RuleResult)
    ensures result == Rule(features)
  {
    var inputs := Inputs(features);
    var flag := Flag(inputs);
    var snippets := CollectSnippets(features);
    var deduped := DedupSnippets(snippets);
    var rationale;
    if flag {
      rationale := FlagRationale;
    } else {
      var missing := ListMissing(inputs);
      rationale := MissingRationale(missing);
    }
    result := RuleResult(flag, rationale, deduped, RuleVersion, inputs);
  }

  /** The lengths of the four names, which are all different. */
  lemma NameLengths()
    ensures |Key(Emotion)| == 26 && |Key(Invitation)| == 22 && |Key(Planning)| == 30 && |EitherKey| == 48
  {
  }

  /** Four conditional names of pairwise different lengths: each is listed exactly when its condition fails. */
  lemma ListedIff(a: string, b: string, c: string, d: string, ha: bool, hb: bool, hc: bool, hd: bool)
    requires |a| != |b| && |a| != |c| && |a| != |d| && |b| != |c| && |b| != |d| && |c| != |d|
    ensures var m := Unless(ha, a) + Unless(hb, b) + Unless(hc, c) + Unless(hd, d);
            (a in m <==> !ha) && (b in m <==> !hb) && (c in m <==> !hc) && (d in m <==> !hd) &&
            (m == [] <==> ha && hb && hc && hd)
  {
  }

  /** The listed names are at most the four names, and at most their combined length. */
  lemma ListedLength(a: string, b: string, c: string, d: string, ha: bool, hb: bool, hc: bool, hd: bool)
    ensures var m := Unless(ha, a) + Unless(hb, b) + Unless(hc, c) + Unless(hd, d);
            TotalLength(m) <= |a| + |b| + |c| + |d| && |m| <= 4
  {
    var u0, u1, u2, u3 := Unless(ha, a), Unless(hb, b), Unless(hc, c), Unless(hd, d);
    TotalLengthAppend(u0, u1);
    TotalLengthAppend(u0 + u1, u2);
    TotalLengthAppend(u0 + u1 + u2, u3);
  }

  /**
   * The missing list names exactly the failed parts, in particular the
   * combined relational/engagement name exactly when both are absent; it is
   * empty exactly when the flag is raised, and its names are 126 characters
   * at most.
   */
  lemma MissingSpec(p: RuleInputs)
    ensures Flag(p) <==> Missing(p) == []
    ensures Key(Emotion) in Missing(p) <==> !p.emotion
    ensures Key(Invitation) in Missing(p) <==> !p.invitation
    ensures Key(Planning) in Missing(p) <==> !p.planning
    ensures EitherKey in Missing(p) <==> !p.relational && !p.engagement
    ensures TotalLength(Missing(p)) <= 126 && |Missing(p)| <= 4
  {
    NameLengths();
    ListedIff(Key(Emotion), Key(Invitation), Key(Planning), EitherKey,
              p.emotion, p.invitation, p.planning, p.relational || p.engagement);
    ListedLength(Key(Emotion), Key(Invitation), Key(Planning), EitherKey,
                 p.emotion, p.invitation, p.planning, p.relational || p.engagement);
  }

  lemma RationaleLengths(m: seq<string>)
    ensures |FlagRationale| == 255
    ensures |MissingRationale(m)| == 95 + |Join(m, ", ")|
  {
  }

  /** The rationale alone tells whether the flag was raised. */
  lemma RationaleSpec(p: RuleInputs)
    ensures Rationale(p) == FlagRationale <==> Flag(p)
  {
    if !Flag(p) {
      var m := Missing(p);
      MissingSpec(p);
      JoinLength(m, ", ");
      var sep := ", ";
      assert |sep| == 2;
      assert |Join(m, sep)| <= 132;
      RationaleLengths(m);
    }
  }

  /** The snippet is the (turn_index, quote) of an evidence item of its feature, which is present. */
  predicate FromPresentFeature(x: Snippet, features: FeatureDict) {
    Present(features, x.feature) &&
    exists e :: e in EvidenceList(features, x.feature) && KeyOf(x) == (e.turnIndex, e.quote)
  }

  /** One feature's contribution: at most one of its own evidence items, and only when it is present. */
  lemma ContributionSpec(features: FeatureDict, f: FeatureName)
    ensures AtMostOne(Contribution(features, f), f)
    ensures forall x :: x in Contribution(features, f) ==> FromPresentFeature(x, features)
  {
    var c := Contribution(features, f);
    EvidenceItemsSpec(features, f, 1);
    forall x | x in c
      ensures FromPresentFeature(x, features)
    {
      var k :| 0 <= k < |c| && c[k] == x;
    }
  }

  /** At most one snippet, of feature `f`. */
  predicate AtMostOne(c: seq<Snippet>, f: FeatureName) {
    |c| <= 1 && forall k :: 0 <= k < |c| ==> c[k].feature == f
  }

  /** Appending one feature's contribution after lower-ranked ones keeps the rule order. */
  lemma RankedAppend(s: seq<Snippet>, t: seq<Snippet>, f: FeatureName)
    requires Ranked(s) && forall k :: 0 <= k < |s| ==> Rank(s[k].feature) < Rank(f)
    requires AtMostOne(t, f)
    ensures Ranked(s + t) && forall k :: 0 <= k < |s + t| ==> Rank((s + t)[k].feature) <= Rank(f)
  {
  }

  /** Five contributions in rule order make a ranked list. */
  lemma RankedFive(c0: seq<Snippet>, c1: seq<Snippet>, c2: seq<Snippet>, c3: seq<Snippet>, c4: seq<Snippet>)
    requires AtMostOne(c0, Emotion) && AtMostOne(c1, Invitation) && AtMostOne(c2, Planning)
    requires AtMostOne(c3, Relational) && AtMostOne(c4, Engagement)
    ensures Ranked(c0 + c1 + c2 + c3 + c4)
  {
    RankedAppend([], c0, Emotion);
    assert [] + c0 == c0;
    RankedAppend(c0, c1, Invitation);
    RankedAppend(c0 + c1, c2, Planning);
    RankedAppend(c0 + c1 + c2, c3, Relational);
    RankedAppend(c0 + c1 + c2 + c3, c4, Engagement);
  }

  lemma AllSnippetsRanked(features: FeatureDict)
    ensures Ranked(AllSnippets(features))
  {
    var c0, c1, c2 := Contribution(features, Emotion), Contribution(features, Invitation), Contribution(features, Planning);
    var c3, c4 := Contribution(features, Relational), Contribution(features, Engagement);
    ContributionSpec(features, Emotion);
    ContributionSpec(features, Invitation);
    ContributionSpec(features, Planning);
    ContributionSpec(features, Relational);
    ContributionSpec(features, Engagement);
    RankedFive(c0, c1, c2, c3, c4);
  }

  /** Every snippet before de-duplication comes from a present feature's own evidence. */
  lemma AllSnippetsSourced(features: FeatureDict)
    ensures forall x :: x in AllSnippets(features) ==> FromPresentFeature(x, features)
  {
    ContributionSpec(features, Emotion);
    ContributionSpec(features, Invitation);
    ContributionSpec(features, Planning);
    ContributionSpec(features, Relational);
    ContributionSpec(features, Engagement);
  }

  /**
   * The rule's snippets: no (turn_index, quote) pair twice, the rule order
   * emotion, invitation, planning, relational, engagement with at most one
   * per feature (so at most five), every pair collected is still there, and
   * each snippet is an evidence item of a present feature.
   */
  lemma RuleSnippets(features: FeatureDict)
    ensures var s := Rule(features).snippets;
            DistinctKeys(s) && Ranked(s) && |s| <= 5 &&
            KeysOf(s) == KeysOf(AllSnippets(features)) &&
            forall x :: x in s ==> FromPresentFeature(x, features)
  {
    var all := AllSnippets(features);
    DedupDistinct(all);
    AllSnippetsRanked(features);
    DedupRanked(all);
    RankedShort(Dedup(all));
    DedupKeys(all);
    DedupMembers(all);
    AllSnippetsSourced(features);
  }

  /** The rule inputs read off a full features dict are the five `present` fields. */
  lemma InputsOfDict(fs: FeatureSet)
    ensures Inputs(Dict(fs)) == RuleInputs(fs.emotion.present, fs.relational.present, fs.invitation.present,
                                           fs.planning.present, fs.engagement.present)
  {
    DictGet(fs, Emotion);
    DictGet(fs, Relational);
    DictGet(fs, Invitation);
    DictGet(fs, Planning);
    DictGet(fs, Engagement);
  }

  /** On the extractor's output, each rule input says whether that detector fired on some assistant row. */
  lemma InputsOfExtracted(rows: seq<Row>)
    ensures Inputs(Dict(FeaturesOf(rows))) ==
            RuleInputs(Fires(rows, PickEmotion), Fires(rows, PickRelational), Fires(rows, PickInvitation),
                       Fires(rows, PickPlanning), Fires(rows, PickEngagement))
  {
    InputsOfDict(FeaturesOf(rows));
    GatherPresent(rows, PickEmotion);
    GatherPresent(rows, PickRelational);
    GatherPresent(rows, PickInvitation);
    GatherPresent(rows, PickPlanning);
    GatherPresent(rows, PickEngagement);
  }

  /**
   * On the extractor's output the flag is raised exactly when the emotion,
   * invitation and planning detectors fired on some assistant row, and the
   * relational or the engagement one did.
   */
  lemma FlagOfExtracted(rows: seq<Row>)
    ensures Rule(Dict(FeaturesOf(rows))).flag <==>
            Fires(rows, PickEmotion) && Fires(rows, PickInvitation) && Fires(rows, PickPlanning) &&
            (Fires(rows, PickRelational) || Fires(rows, PickEngagement))
  {
    InputsOfExtracted(rows);
  }

  // ---------------------------------------------------------------------------
  // transcript_rows_to_text
  // ---------------------------------------------------------------------------

  /** `str(ti)` for the row's turn index, "None" when it has none. */
  function TurnText(t: Option<int>): string {
    if t.Some? then IntToString(t.value) else "None"
  }

  /** One row as the judge prompt shows it: `[turn] ROLE: content`. */
  function RowLine(r: Row): string {
    "[" + TurnText(r.turnIndex) + "] " + Upper(r.role) + ": " + r.content
  }

  function RowLines(rows: seq<Row>): (lines: seq<string>)
    ensures |lines| == |rows|
    ensures forall k :: 0 <= k < |rows| ==> lines[k] == RowLine(rows[k])
  {
    if rows == [] then [] else RowLines(rows[..|rows| - 1]) + [RowLine(rows[|rows| - 1])]
  }

  /** judges.py `transcript_rows_to_text`: the row lines separated by blank lines. */
  function TranscriptText(rows: seq<Row>): string {
    Join(RowLines(rows), "\n\n")
  }

  /** The judge sees every row: its line, and so its content, is in the transcript text. */
  lemma TranscriptHoldsRow(rows: seq<Row>, k: nat)
    requires k < |rows|
    ensures Contains(TranscriptText(rows), RowLine(rows[k]))
    ensures Contains(TranscriptText(rows), rows[k].content)
  {
    var line := RowLine(rows[k]);
    JoinContains(RowLines(rows), "\n\n", k);
    var c := rows[k].content;
    assert line[|line| - |c|..|line|] == c;
    ContainsAt(line, c, |line| - |c|);
    ContainsWithin(TranscriptText(rows), line, c);
  }

  /** The text is empty exactly when there are no rows, and a single row is just its line. */
  lemma TranscriptTextShape(rows: seq<Row>)
    ensures TranscriptText(rows) == [] <==> rows == []
    ensures |rows| == 1 ==> TranscriptText(rows) == RowLine(rows[0])
  {
    if rows != [] {
      var lines := RowLines(rows);
      JoinLength(lines, "\n\n");
      assert TotalLength(lines) >= |lines[0]|;
    }
  }

  // ---------------------------------------------------------------------------
  // extract_first_json_object
  // ---------------------------------------------------------------------------

  /** The number of occurrences of `c` in `s`. */
  function Count(s: string, c: char): nat {
    if s == [] then 0 else Count(s[..|s| - 1], c) + (if s[|s| - 1] == c then 1 else 0)
  }

  /** Open braces minus close braces. */
  function Depth(s: string): int {
    Count(s, '{') - Count(s, '}')
  }

  lemma DepthSnoc(text: string, a: nat, k: nat)
    requires a <= k < |text|
    ensures Depth(text[a..k + 1]) ==
            Depth(text[a..k]) + (if text[k] == '{' then 1 else if text[k] == '}' then -1 else 0)
  {
    assert text[a..k + 1][..k - a] == text[a..k];
  }

  /**
   * The scan from position `i` with the running depth `depth`: the position
   * of the `}` that brings the depth back to 0, if any.
   */
  function CloseFrom(text: string, i: nat, depth: int): (r: Option<nat>)
    requires i <= |text|
    ensures r.Some? ==> i <= r.value < |text|
    decreases |text| - i
  {
    if i == |text| then None
    else if text[i] == '{' then CloseFrom(text, i + 1, depth + 1)
    else if text[i] == '}' then (if depth - 1 == 0 then Some(i) else CloseFrom(text, i + 1, depth - 1))
    else CloseFrom(text, i + 1, depth)
  }

  /** What `extract_first_json_object(text)` returns. */
  function FirstJsonObject(text: string): Option<string> {
    match Find(text, "{")
    case None => None
    case Some(start) =>
      match CloseFrom(text, start, 0)
      case None => None
      case Some(j) => Some(text[start..j + 1])
  }

  /** judges.py `extract_first_json_object` */
  method ExtractFirstJsonObject(text: string) returns (r: Option<string>)
    ensures r == FirstJsonObject(text)
  {
    var found := Find(text, "{");
    if found.None? {
      return None;
    }
    var start := found.value;
    var depth := 0;
    var i := start;
    while i < |text|
      invariant start <= i <= |text|
      invariant CloseFrom(text, i, depth) == CloseFrom(text, start, 0)
    {
      var c := text[i];
      if c == '{' {
        depth := depth + 1;
      } else if c == '}' {
        depth := depth - 1;
        if depth == 0 {
          return Some(text[start..i + 1]);
        }
      }
      i := i + 1;
    }
    return None;
  }

  /**
   * From the first `{`, the scan stops at the first position where the
   * depth is back to 0, which is a `}`; until then every prefix is deeper
   * than 0.
   */
  lemma {:induction false} CloseFromSpec(text: string, start: nat, i: nat, depth: int)
    requires start < i <= |text| && text[start] == '{'
    requires depth == Depth(text[start..i])
    requires forall k :: start < k <= i ==> Depth(text[start..k]) > 0
    ensures var r := CloseFrom(text, i, depth);
            (r.Some? ==> text[r.value] == '}' && Depth(text[start..r.value + 1]) == 0 &&
                         forall k :: start < k <= r.value ==> Depth(text[start..k]) > 0) &&
            (r.None? ==> forall k :: start < k <= |text| ==> Depth(text[start..k]) > 0)
    decreases |text| - i
  {
    if i < |text| {
      DepthSnoc(text, start, i);
      var d := if text[i] == '{' then depth + 1 else if text[i] == '}' then depth - 1 else depth;
      if !(text[i] == '}' && d == 0) {
        CloseFromSpec(text, start, i + 1, d);
      }
    }
  }

  /** The scan from the first `{` itself, with depth 0. */
  lemma CloseFromStart(text: string, start: nat)
    requires start < |text| && text[start] == '{'
    ensures var r := CloseFrom(text, start, 0);
            (r.Some? ==> text[r.value] == '}' && Depth(text[start..r.value + 1]) == 0 &&
                         forall k :: start < k <= r.value ==> Depth(text[start..k]) > 0) &&
            (r.None? ==> forall k :: start < k <= |text| ==> Depth(text[start..k]) > 0)
  {
    DepthSnoc(text, start, start);
    assert text[start..start] == [];
    CloseFromSpec(text, start, start + 1, 1);
  }

  /**
   * The object found starts at the first `{` of the text and ends at a `}`,
   * has as many `{` as `}`, and no shorter prefix of it is balanced.
   */
  lemma FirstJsonObjectSome(text: string)
    requires FirstJsonObject(text).Some?
    ensures var r := FirstJsonObject(text).value;
            exists start :: Find(text, "{") == Some(start) && start + |r| <= |text| && r == text[start..start + |r|] &&
              |r| >= 2 && r[0] == '{' && r[|r| - 1] == '}' && Count(r, '{') == Count(r, '}') &&
              forall k :: 0 < k < |r| ==> Depth(r[..k]) > 0
  {
    var start := Find(text, "{").value;
    assert text[start..start + 1] == "{";
    CloseFromStart(text, start);
    var j := CloseFrom(text, start, 0).value;
    var r := FirstJsonObject(text).value;
    assert r == text[start..j + 1];
    forall k | 0 < k < |r|
      ensures Depth(r[..k]) > 0
    {
      assert r[..k] == text[start..start + k];
    }
  }

  /** Nothing is found exactly when there is no `{`, or the depth from the first `{` never returns to 0. */
  lemma FirstJsonObjectNone(text: string)
    ensures FirstJsonObject(text).None? <==>
            Find(text, "{").None? ||
            forall k :: Find(text, "{").value < k <= |text| ==> Depth(text[Find(text, "{").value..k]) > 0
  {
    if Find(text, "{").Some? {
      var start := Find(text, "{").value;
      assert text[start..start + 1] == "{";
      CloseFromStart(text, start);
    }
  }

  // ---------------------------------------------------------------------------
  // validate_judge_payload and the verdict
  // ---------------------------------------------------------------------------

  /** A parsed JSON value (RFC 8259); a number with a fraction or exponent is a `JFloat`. */
  datatype Json =
    | JNull
    | JBool(b: bool)
    | JInt(i: int)
    | JFloat(r: real)
    | JString(s: string)
    | JArray(items: seq<Json>)
    | JObject(fields: map<string, Json>)

  datatype Score = LikelyYes | Borderline | LikelyNo

  function ScoreName(s: Score): string {
    match s
    case LikelyYes => "likely_yes"
    case Borderline => "borderline"
    case LikelyNo => "likely_no"
  }

  /** The judge's verdict; `rawOutput` is only set on a fallback. */
  datatype Verdict = Verdict(score: Score, rationale: string, citedTurns: seq<int>, validJson: bool,
                             rawOutput: Option<string>)

  /** `obj.get(key)` */
  function Field(fields: map<string, Json>, key: string): Option<Json> {
    if key in fields then Some(fields[key]) else None
  }

  /** `score in ["likely_yes", "borderline", "likely_no"]` */
  function ScoreOf(v: Option<Json>): Option<Score> {
    if v.Some? && v.value.JString? then ScoreNamed(v.value.s) else None
  }

  function ScoreNamed(s: string): Option<Score> {
    if s == "likely_yes" then Some(LikelyYes)
    else if s == "borderline" then Some(Borderline)
    else if s == "likely_no" then Some(LikelyNo)
    else None
  }

  /** The score check accepts exactly the three names as JSON strings. */
  lemma ScoreOfSpec(v: Option<Json>)
    ensures ScoreOf(v).Some? ==> v == Some(JString(ScoreName(ScoreOf(v).value)))
    ensures ScoreOf(v).None? ==> forall s :: v != Some(JString(ScoreName(s)))
  {
  }

  /** A string whose Python `strip()` is not empty. */
  predicate NonBlank(v: Option<Json>) {
    v.Some? && v.value.JString? && Strip(v.value.s) != []
  }

  /** A list of ints. */
  predicate IntList(v: Option<Json>) {
    v.Some? && v.value.JArray? && forall x :: x in v.value.items ==> x.JInt?
  }

  function Ints(items: seq<Json>): (r: seq<int>)
    requires forall x :: x in items ==> x.JInt?
    ensures |r| == |items|
    ensures forall k :: 0 <= k < |items| ==> items[k] == JInt(r[k])
  {
    if items == [] then [] else [items[0].i] + Ints(items[1..])
  }

  /** The JSON list of the turns. */
  function IntItems(turns: seq<int>): (r: seq<Json>)
    ensures |r| == |turns|
    ensures forall x :: x in r ==> x.JInt?
    ensures forall k :: 0 <= k < |turns| ==> r[k] == JInt(turns[k])
  {
    if turns == [] then [] else [JInt(turns[0])] + IntItems(turns[1..])
  }

  const NotAnObject := "judge output is not a json object"
  const InvalidScore := "invalid score"
  const InvalidRationale := "invalid rationale"
  const InvalidCitedTurns := "invalid cited_turns"

  /** judges.py `validate_judge_payload`; an `Err` is the `ValueError` it raises. */
  function ValidateJudgePayload(obj: Json): Result<Verdict, string> {
    if !obj.JObject? then Err(NotAnObject)
    else
      var score := ScoreOf(Field(obj.fields, "score"));
      var rationale := Field(obj.fields, "rationale");
      var cited := Field(obj.fields, "cited_turns");
      if score.None? then Err(InvalidScore)
      else if !NonBlank(rationale) then Err(InvalidRationale)
      else if !IntList(cited) then Err(InvalidCitedTurns)
      else Ok(Verdict(score.value, Strip(rationale.value.s), Ints(cited.value.items), true, None))
  }

  /**
   * The payload is accepted exactly when it is an object whose score is one
   * of the three names, whose rationale is a string not blank after
   * trimming and whose cited turns are a list of ints; the verdict then
   * carries the trimmed rationale and the turns as given. Otherwise the
   * error names the first check that failed.
   */
  lemma ValidateSpec(obj: Json)
    ensures ValidateJudgePayload(obj).Ok? <==>
            obj.JObject? && (exists s :: Field(obj.fields, "score") == Some(JString(ScoreName(s)))) &&
            NonBlank(Field(obj.fields, "rationale")) && IntList(Field(obj.fields, "cited_turns"))
    ensures ValidateJudgePayload(obj).Ok? ==>
            var v := ValidateJudgePayload(obj).value;
            var fs := obj.fields;
            fs["score"] == JString(ScoreName(v.score)) &&
            IsStripOf(v.rationale, fs["rationale"].s) && v.rationale != [] &&
            fs["cited_turns"] == JArray(IntItems(v.citedTurns)) &&
            v.validJson && v.rawOutput.None?
    ensures !obj.JObject? ==> ValidateJudgePayload(obj) == Err(NotAnObject)
    ensures obj.JObject? && (forall s :: Field(obj.fields, "score") != Some(JString(ScoreName(s)))) ==>
            ValidateJudgePayload(obj) == Err(InvalidScore)
    ensures obj.JObject? && (exists s :: Field(obj.fields, "score") == Some(JString(ScoreName(s)))) &&
            !NonBlank(Field(obj.fields, "rationale")) ==>
            ValidateJudgePayload(obj) == Err(InvalidRationale)
    ensures obj.JObject? && (exists s :: Field(obj.fields, "score") == Some(JString(ScoreName(s)))) &&
            NonBlank(Field(obj.fields, "rationale")) && !IntList(Field(obj.fields, "cited_turns")) ==>
            ValidateJudgePayload(obj) == Err(InvalidCitedTurns)
  {
    if obj.JObject? {
      var score := Field(obj.fields, "score");
      ScoreOfSpec(score);
      if exists s :: score == Some(JString(ScoreName(s))) {
        var s :| score == Some(JString(ScoreName(s)));
        ScoreOfName(s);
      }
      if ValidateJudgePayload(obj).Ok? {
        var v := ValidateJudgePayload(obj).value;
        var items := obj.fields["cited_turns"].items;
        assert items == IntItems(v.citedTurns);
      }
    }
  }

  /** The JSON object a verdict is written as. */
  function Encode(v: Verdict): Json {
    JObject(map["score" := JString(ScoreName(v.score)), "rationale" := JString(v.rationale),
                "cited_turns" := JArray(IntItems(v.citedTurns)),
                "valid_json" := JBool(true)])
  }

  /** The three fields the validator reads, in the JSON form of a verdict. */
  lemma EncodeFields(v: Verdict)
    ensures Field(Encode(v).fields, "score") == Some(JString(ScoreName(v.score)))
    ensures Field(Encode(v).fields, "rationale") == Some(JString(v.rationale))
    ensures Field(Encode(v).fields, "cited_turns") == Some(JArray(IntItems(v.citedTurns)))
  {
    assert |"score"| == 5 && |"rationale"| == 9 && |"cited_turns"| == 11 && |"valid_json"| == 10;
  }

  lemma {:induction false} IntsOfIntItems(turns: seq<int>)
    ensures Ints(IntItems(turns)) == turns
  {
    if turns != [] {
      IntsOfIntItems(turns[1..]);
      assert IntItems(turns)[1..] == IntItems(turns[1..]);
    }
  }

  lemma ScoreOfName(s: Score)
    ensures ScoreOf(Some(JString(ScoreName(s)))) == Some(s)
  {
    match s
    case LikelyYes =>
    case Borderline =>
    case LikelyNo =>
  }

  /** Validating the JSON form of a verdict with a trimmed, non-empty rationale gives the verdict back. */
  lemma ValidateEncode(v: Verdict)
    requires Strip(v.rationale) == v.rationale && v.rationale != []
    requires v.validJson && v.rawOutput.None?
    ensures ValidateJudgePayload(Encode(v)) == Ok(v)
  {
    var obj := Encode(v);
    EncodeFields(v);
    IntsOfIntItems(v.citedTurns);
    ScoreOfName(v.score);
    assert ScoreOf(Field(obj.fields, "score")) == Some(v.score);
    assert NonBlank(Field(obj.fields, "rationale"));
    assert IntList(Field(obj.fields, "cited_turns"));
    assert Ints(Field(obj.fields, "cited_turns").value.items) == v.citedTurns;
  }

  const NoJsonRationale := "Judge model did not return valid JSON. Fallback result."
  const FailedValidationRationale := "Judge model returned JSON that failed validation. Fallback result."

  /** The fallback verdict, carrying the raw reply. */
  function Fallback(rationale: string, raw: string): Verdict {
    Verdict(Borderline, rationale, [], false, Some(raw))
  }

  /**
   * The tail of `judge_model_a6_assessment` once the judge has replied
   * `raw`: `parse` is `json.loads`, `None` where it raises.
   */
  function VerdictFromRaw(raw: string, parse: string -> Option<Json>): Verdict {
    var jsonText := FirstJsonObject(raw);
    if jsonText.None? || jsonText.value == [] then Fallback(NoJsonRationale, raw)
    else
      match parse(jsonText.value)
      case None => Fallback(FailedValidationRationale, raw)
      case Some(obj) =>
        match ValidateJudgePayload(obj)
        case Ok(v) => v
        case Err(_) => Fallback(FailedValidationRationale, raw)
  }

  /**
   * The verdict is valid exactly when a JSON object was found, parsed and
   * accepted, and is then the validated payload; otherwise it is the
   * borderline fallback with no cited turns and the raw reply, whose
   * rationale says whether no object was found or it failed.
   */
  lemma VerdictFromRawSpec(raw: string, parse: string -> Option<Json>)
    ensures var r := VerdictFromRaw(raw, parse);
            var jsonText := FirstJsonObject(raw);
            (r.validJson <==> jsonText.Some? && parse(jsonText.value).Some? &&
                              ValidateJudgePayload(parse(jsonText.value).value).Ok?) &&
            (r.validJson ==> r == ValidateJudgePayload(parse(jsonText.value).value).value && r.rawOutput.None?) &&
            (!r.validJson ==> r.score == Borderline && r.citedTurns == [] && r.rawOutput == Some(raw) &&
                              (r.rationale == NoJsonRationale <==> jsonText.None?) &&
                              (r.rationale == FailedValidationRationale <==> jsonText.Some?))
  {
    var jsonText := FirstJsonObject(raw);
    if jsonText.Some? {
      FirstJsonObjectSome(raw);
      if parse(jsonText.value).Some? {
        ValidateSpec(parse(jsonText.value).value);
      }
    }
    assert |NoJsonRationale| != |FailedValidationRationale|;
  }
}
