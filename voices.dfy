/** Voice selection for speech output: a priority search over the voices the
    platform reports, matching names and languages case-insensitively. */
module Voices {

  import opened Optional

  /** A speech-synthesis voice as the platform describes it. */
  datatype Voice = Voice(name: string, lang: string)

  /** ASCII lower-casing, the case folding the `/…/i` tests amount to on the
      patterns used here. */
  function LowerChar(c: char): (d: char)
    ensures 'A' <= c <= 'Z' ==> d as int == c as int + 32
    ensures !('A' <= c <= 'Z') ==> d == c
  {
    if 'A' <= c <= 'Z' then (c as int + 32) as char else c
  }

  function Lower(s: string): (r: string)
    ensures |r| == |s|
    ensures forall i :: 0 <= i < |s| ==> r[i] == LowerChar(s[i])
  {
    seq(|s|, i requires 0 <= i < |s| => LowerChar(s[i]))
  }

  /** `needle` occurs in `hay` at position i. */
  predicate OccursAt(hay: string, needle: string, i: nat) {
    i + |needle| <= |hay| && hay[i..i + |needle|] == needle
  }

  /** Substring search, the test a regular expression without special
      characters performs. */
  function Contains(hay: string, needle: string): bool
    decreases |hay|
  {
    if |hay| < |needle| then false
    else hay[..|needle|] == needle || Contains(hay[1..], needle)
  }

  /** Contains finds exactly the occurrences. */
  lemma {:induction false} ContainsOccurs(hay: string, needle: string)
    ensures Contains(hay, needle) <==> exists i: nat :: OccursAt(hay, needle, i)
    decreases |hay|
  {
    if |hay| >= |needle| {
      if hay[..|needle|] == needle {
        assert OccursAt(hay, needle, 0);
      } else {
        ContainsOccurs(hay[1..], needle);
        forall i: nat | OccursAt(hay[1..], needle, i) ensures OccursAt(hay, needle, i + 1) {
          assert hay[1..][i..i + |needle|] == hay[i + 1..i + 1 + |needle|];
        }
        forall i: nat | OccursAt(hay, needle, i) ensures i >= 1 && OccursAt(hay[1..], needle, i - 1) {
          assert hay[1..][i - 1..i - 1 + |needle|] == hay[i..i + |needle|];
        }
      }
    }
  }

  /** `/needle/i.test(hay)` for a lower-case ASCII pattern. */
  predicate Matches(hay: string, needle: string) {
    Contains(Lower(hay), needle)
  }

  /** The three preferences, in order. */
  predicate IsEmilyMicrosoft(v: Voice) {
    Matches(v.name, "emily") && Matches(v.name, "microsoft")
  }

  predicate IsNeuralMicrosoft(v: Voice) {
    Matches(v.name, "neural") && Matches(v.name, "microsoft")
  }

  predicate IsEnglish(v: Voice) {
    Matches(v.lang, "english")
  }

  /** Array.prototype.find from position i on, as an index. */
  function FindFrom(vs: seq<Voice>, p: Voice -> bool, i: nat): (r: Option<nat>)
    requires i <= |vs|
    ensures r.Some? ==> i <= r.value < |vs| && p(vs[r.value])
                        && forall j :: i <= j < r.value ==> !p(vs[j])
    ensures r.None? ==> forall j :: i <= j < |vs| ==> !p(vs[j])
    decreases |vs| - i
  {
    if i == |vs| then None
    else if p(vs[i]) then Some(i)
    else FindFrom(vs, p, i + 1)
  }

  /** The preference tier of a voice: 0 is the most preferred. */
  function Rank(v: Voice): nat {
    if IsEmilyMicrosoft(v) then 0
    else if IsNeuralMicrosoft(v) then 1
    else if IsEnglish(v) then 2
    else 3
  }

  /** vs[k] has the best rank in vs, and no voice before it has that rank. */
  predicate IsFirstBest(vs: seq<Voice>, k: nat) {
    k < |vs|
    && (forall j :: 0 <= j < |vs| ==> Rank(vs[k]) <= Rank(vs[j]))
    && (forall j :: 0 <= j < k ==> Rank(vs[k]) < Rank(vs[j]))
  }

  /** pickVoice: a Microsoft "Emily" voice, else a Microsoft neural voice, else
      a voice whose language mentions English, else the first voice, else none. */
  function PickVoice(vs: seq<Voice>): (r: Option<Voice>)
    ensures r.None? <==> vs == []
    ensures r.Some? ==> exists k: nat :: IsFirstBest(vs, k) && r.value == vs[k]
  {
    match FindFrom(vs, IsEmilyMicrosoft, 0)
    case Some(k) =>
      assert IsFirstBest(vs, k);
      Some(vs[k])
    case None =>
      match FindFrom(vs, IsNeuralMicrosoft, 0)
      case Some(k) =>
        assert IsFirstBest(vs, k);
        Some(vs[k])
      case None =>
        match FindFrom(vs, IsEnglish, 0)
        case Some(k) =>
          assert IsFirstBest(vs, k);
          Some(vs[k])
        case None =>
          if vs == [] then None
          else
            assert IsFirstBest(vs, 0);
            Some(vs[0])
  }

  /** There is only one first best voice, so the pick is determined. */
  lemma FirstBestUnique(vs: seq<Voice>, k: nat, k': nat)
    requires IsFirstBest(vs, k) && IsFirstBest(vs, k')
    ensures k == k'
  {
    assert Rank(vs[k]) == Rank(vs[k']);
  }
}
