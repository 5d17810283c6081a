/**
 * Choosing a yt-dlp format for a requested resolution and building the format string
 * handed to the download call (`_download_video`).
 */
module Selection {
  import opened Wrappers
  import opened Text
  import opened Formats
  import opened Decimal

  /** One entry of `suitable_formats`. */
  datatype Candidate = Candidate(id: Option<string>, height: int, hasAudio: bool, diff: nat)

  function Abs(x: int): nat {
    if x < 0 then -x else x
  }

  /** The record the selection loop appends for a video format. */
  function ToCandidate(f: Format, target: int): Candidate
    requires IsVideoFormat(f)
  {
    Candidate(IdOf(f), f.height.value, CodecPresent(f.acodec), Abs(f.height.value - target))
  }

  /** `suitable_formats` after the loop: one candidate per video format, in list order. */
  function Candidates(formats: seq<Format>, target: int): (c: seq<Candidate>)
    ensures |c| <= |formats|
  {
    if formats == [] then []
    else
      var last := formats[|formats| - 1];
      Candidates(formats[..|formats| - 1], target) + if IsVideoFormat(last) then [ToCandidate(last, target)] else []
  }

  /** Every video format contributes its candidate. */
  lemma {:induction false} CandidatesComplete(formats: seq<Format>, target: int, i: int)
    requires 0 <= i < |formats| && IsVideoFormat(formats[i])
    ensures ToCandidate(formats[i], target) in Candidates(formats, target)
    decreases |formats|
  {
    var n := |formats|;
    var init := formats[..n - 1];
    var c := Candidates(formats, target);
    assert c == Candidates(init, target) + if IsVideoFormat(formats[n - 1]) then [ToCandidate(formats[n - 1], target)] else [];
    if i < n - 1 {
      assert init[i] == formats[i];
      CandidatesComplete(init, target, i);
      var x := ToCandidate(formats[i], target);
      assert x in Candidates(init, target);
    } else {
      assert c[|c| - 1] == ToCandidate(formats[i], target);
    }
  }

  /**
   * Every candidate comes from a video format, and every video format before that one
   * contributed one of the candidates before it.
   */
  lemma {:induction false} CandidatesOrigin(formats: seq<Format>, target: int, k: int)
    requires 0 <= k < |Candidates(formats, target)|
    ensures exists i | 0 <= i < |formats| ::
      && IsVideoFormat(formats[i])
      && Candidates(formats, target)[k] == ToCandidate(formats[i], target)
      && forall j | 0 <= j < i && IsVideoFormat(formats[j]) :: ToCandidate(formats[j], target) in Candidates(formats, target)[..k]
    decreases |formats|
  {
    var n := |formats|;
    var init := formats[..n - 1];
    var ci := Candidates(init, target);
    var c := Candidates(formats, target);
    assert c == ci + if IsVideoFormat(formats[n - 1]) then [ToCandidate(formats[n - 1], target)] else [];
    if k < |ci| {
      CandidatesOrigin(init, target, k);
      var i :| 0 <= i < |init| && IsVideoFormat(init[i]) && ci[k] == ToCandidate(init[i], target)
        && forall j | 0 <= j < i && IsVideoFormat(init[j]) :: ToCandidate(init[j], target) in ci[..k];
      assert c[..k] == ci[..k];
      assert init[i] == formats[i];
      forall j | 0 <= j < i && IsVideoFormat(formats[j])
        ensures ToCandidate(formats[j], target) in c[..k]
      {
        assert init[j] == formats[j];
      }
      assert IsVideoFormat(formats[i]) && c[k] == ToCandidate(formats[i], target);
    } else {
      assert c[..k] == ci;
      forall j | 0 <= j < n - 1 && IsVideoFormat(formats[j])
        ensures ToCandidate(formats[j], target) in c[..k]
      {
        assert init[j] == formats[j];
        CandidatesComplete(init, target, j);
      }
      assert IsVideoFormat(formats[n - 1]) && c[k] == ToCandidate(formats[n - 1], target);
    }
  }

  /** There are candidates exactly when some format has a truthy height and a video codec. */
  lemma {:induction false} CandidatesEmpty(formats: seq<Format>, target: int)
    ensures Candidates(formats, target) == [] <==> forall i | 0 <= i < |formats| :: !IsVideoFormat(formats[i])
  {
    var c := Candidates(formats, target);
    if c != [] {
      CandidatesOrigin(formats, target, 0);
    }
    forall i | 0 <= i < |formats| && IsVideoFormat(formats[i])
      ensures c != []
    {
      CandidatesComplete(formats, target, i);
    }
  }

  /** `key(a) <= key(b)` for the sort key `(diff, not has_audio)`, where `False < True`. */
  predicate KeyLe(a: Candidate, b: Candidate) {
    a.diff < b.diff || (a.diff == b.diff && (a.hasAudio || !b.hasAudio))
  }

  predicate SortedByKey(s: seq<Candidate>) {
    forall i, j | 0 <= i < j < |s| :: KeyLe(s[i], s[j])
  }

  /** Insertion of `x` before the first element whose key is not smaller. */
  function Insert(x: Candidate, s: seq<Candidate>): (r: seq<Candidate>)
    ensures |r| == |s| + 1
  {
    if s == [] then [x]
    else if KeyLe(x, s[0]) then [x] + s
    else [s[0]] + Insert(x, s[1..])
  }

  /**
   * `list.sort(key=...)`: a stable sort. Each element is inserted in front of the
   * equal-keyed elements that come after it in the input, so ties keep list order.
   */
  function SortByKey(s: seq<Candidate>): (r: seq<Candidate>)
    ensures |r| == |s|
  {
    if s == [] then [] else Insert(s[0], SortByKey(s[1..]))
  }

  lemma {:induction false} InsertSorted(x: Candidate, s: seq<Candidate>)
    requires SortedByKey(s)
    ensures SortedByKey(Insert(x, s))
    ensures multiset(Insert(x, s)) == multiset(s) + multiset{x}
  {
    if s != [] && !KeyLe(x, s[0]) {
      InsertSorted(x, s[1..]);
      var t := Insert(x, s[1..]);
      assert s == [s[0]] + s[1..];
      forall k | 0 <= k < |t|
        ensures KeyLe(s[0], t[k])
      {
        assert t[k] in multiset(t);
        assert t[k] == x || t[k] in multiset(s[1..]);
        if t[k] != x {
          assert t[k] in s[1..];
        }
      }
    }
  }

  /** The sort orders the candidates by key and keeps each of them. */
  lemma {:induction false} SortByKeySorted(s: seq<Candidate>)
    ensures SortedByKey(SortByKey(s))
    ensures multiset(SortByKey(s)) == multiset(s)
  {
    if s != [] {
      SortByKeySorted(s[1..]);
      InsertSorted(s[0], SortByKey(s[1..]));
      assert s == [s[0]] + s[1..];
    }
  }

  /** The index of the first candidate whose key no other candidate's key is below. */
  function FirstBest(s: seq<Candidate>): (k: nat)
    requires s != []
    ensures k < |s|
    ensures forall j | 0 <= j < |s| :: KeyLe(s[k], s[j])
    ensures forall j | 0 <= j < k :: !KeyLe(s[j], s[k])
  {
    if |s| == 1 then 0
    else
      var k := FirstBest(s[1..]);
      assert forall j | 1 <= j < |s| :: s[j] == s[1..][j - 1];
      if KeyLe(s[0], s[1 + k]) then 0 else 1 + k
  }

  /** The head of the stable sort is the first best candidate. */
  lemma {:induction false} SortHead(s: seq<Candidate>)
    requires s != []
    ensures SortByKey(s)[0] == s[FirstBest(s)]
  {
    if |s| > 1 {
      SortHead(s[1..]);
    }
  }

  /**
   * The selection loop followed by `suitable_formats.sort(...)` and `suitable_formats[0]`
   * (lines 228-254).
   */
  method SelectFormat(formats: seq<Format>, target: int) returns (best: Option<Candidate>)
    ensures best == (var c := Candidates(formats, target); if c == [] then None else Some(c[FirstBest(c)]))
    ensures best.None? <==> forall i | 0 <= i < |formats| :: !IsVideoFormat(formats[i])
    ensures best.Some? ==> forall i | 0 <= i < |formats| && IsVideoFormat(formats[i]) ::
      KeyLe(best.value, ToCandidate(formats[i], target))
    ensures best.Some? ==> exists i | 0 <= i < |formats| ::
      && IsVideoFormat(formats[i])
      && best.value == ToCandidate(formats[i], target)
      && forall j | 0 <= j < i && IsVideoFormat(formats[j]) :: !KeyLe(ToCandidate(formats[j], target), best.value)
  {
    var suitable: seq<Candidate> := [];
    for i := 0 to |formats|
      invariant suitable == Candidates(formats[..i], target)
    {
      var f := formats[i];
      if IsVideoFormat(f) {
        suitable := suitable + [ToCandidate(f, target)];
      }
      assert formats[..i + 1][..i] == formats[..i];
    }
    assert formats[..|formats|] == formats;
    CandidatesEmpty(formats, target);
    var sorted := SortByKey(suitable);
    if sorted == [] {
      best := None;
    } else {
      SortHead(suitable);
      var b := sorted[0];
      best := Some(b);
      var k := FirstBest(suitable);
      forall i | 0 <= i < |formats| && IsVideoFormat(formats[i])
        ensures KeyLe(b, ToCandidate(formats[i], target))
      {
        CandidatesComplete(formats, target, i);
      }
      CandidatesOrigin(formats, target, k);
      var i :| 0 <= i < |formats| && IsVideoFormat(formats[i]) && suitable[k] == ToCandidate(formats[i], target)
        && forall j | 0 <= j < i && IsVideoFormat(formats[j]) :: ToCandidate(formats[j], target) in suitable[..k];
      forall j | 0 <= j < i && IsVideoFormat(formats[j])
        ensures !KeyLe(ToCandidate(formats[j], target), b)
      {
        var x := ToCandidate(formats[j], target);
        assert x in suitable[..k];
        var m :| 0 <= m < k && suitable[m] == x;
      }
    }
  }

  /** The format string of lines 264-273. */
  function FormatString(selectedId: Option<string>, resolution: Option<string>): string {
    if Truthy(selectedId) then
      if Truthy(resolution) then selectedId.value + "+bestaudio/" + selectedId.value + "/best"
      else "bestvideo+bestaudio/best"
    else "best"
  }

  /**
   * Every format string ends in the fallback `best`; without a selected id it is `best`
   * alone, and with one (and a resolution) it starts with that id.
   */
  lemma FormatStringShape(selectedId: Option<string>, resolution: Option<string>)
    ensures var s := FormatString(selectedId, resolution);
      |s| >= 4 && s[|s| - 4..] == "best"
    ensures !Truthy(selectedId) ==> FormatString(selectedId, resolution) == "best"
    ensures Truthy(selectedId) && Truthy(resolution) ==>
      var s := FormatString(selectedId, resolution);
      |selectedId.value| <= |s| && s[..|selectedId.value|] == selectedId.value
  {
    var s := FormatString(selectedId, resolution);
    if Truthy(selectedId) && Truthy(resolution) {
      var id := selectedId.value;
      assert s == id + ("+bestaudio/" + id + "/best");
      assert s[..|id|] == id;
    }
  }

  /** The message of the `ValueError` that `int(resolution)` raises. */
  function ValueErrorText(token: string): string {
    "invalid literal for int() with base 10: '" + token + "'"
  }

  /** The id of the format the selection picks for `target`, if any. */
  function SelectedId(formats: seq<Format>, target: int): Option<string> {
    var c := Candidates(formats, target);
    if c == [] then None else c[FirstBest(c)].id
  }

  /**
   * Lines 219-273 of `_download_video` as a value: the format string, or the text of the
   * exception raised when the resolution token is not an integer.
   */
  function PlanFormat(formats: seq<Format>, resolution: Option<string>): Result<string, string> {
    if Truthy(resolution) && formats != [] then
      match ParseInt(resolution.value)
      case None => Err(ValueErrorText(resolution.value))
      case Some(target) => Ok(FormatString(SelectedId(formats, target), resolution))
    else Ok(FormatString(None, resolution))
  }

  /**
   * Planning fails exactly when a resolution token was given, the video has formats and
   * the token is not an integer, and the failure is the `ValueError` text; a plan that
   * succeeds always ends in the fallback `best`.
   */
  lemma PlanFormatOutcome(formats: seq<Format>, resolution: Option<string>)
    ensures PlanFormat(formats, resolution).Err? <==>
      Truthy(resolution) && formats != [] && ParseInt(resolution.value).None?
    ensures PlanFormat(formats, resolution).Err? ==>
      PlanFormat(formats, resolution).error == ValueErrorText(resolution.value)
    ensures PlanFormat(formats, resolution).Ok? ==>
      var s := PlanFormat(formats, resolution).value;
      |s| >= 4 && s[|s| - 4..] == "best"
  {
    if Truthy(resolution) && formats != [] {
      match ParseInt(resolution.value) {
        case None =>
        case Some(target) =>
          var id := SelectedId(formats, target);
          assert PlanFormat(formats, resolution) == Ok(FormatString(id, resolution));
          FormatStringShape(id, resolution);
      }
    } else {
      assert PlanFormat(formats, resolution) == Ok(FormatString(None, resolution));
      FormatStringShape(None, resolution);
    }
  }

  /**
   * The format string is `"{id}+bestaudio/{id}/best"` exactly when a resolution was given
   * and the selection found a candidate with a truthy id; otherwise it is `"best"`, and the
   * `"bestvideo+bestaudio/best"` branch is never taken.
   */
  lemma PlanFormatCases(formats: seq<Format>, resolution: Option<string>)
    ensures !Truthy(resolution) ==> PlanFormat(formats, resolution) == Ok("best")
    ensures formats == [] ==> PlanFormat(formats, resolution) == Ok("best")
    ensures Truthy(resolution) && formats != [] && ParseInt(resolution.value).None? ==>
      PlanFormat(formats, resolution).Err?
    ensures Truthy(resolution) && ParseInt(resolution.value).Some? ==>
      var id := SelectedId(formats, ParseInt(resolution.value).value);
      PlanFormat(formats, resolution) == Ok(if Truthy(id) then id.value + "+bestaudio/" + id.value + "/best" else "best")
    ensures (Truthy(resolution) && ParseInt(resolution.value).Some?
             && forall i | 0 <= i < |formats| :: !IsVideoFormat(formats[i]))
            ==> PlanFormat(formats, resolution) == Ok("best")
    ensures PlanFormat(formats, resolution) != Ok("bestvideo+bestaudio/best")
  {
    if Truthy(resolution) && ParseInt(resolution.value).Some? {
      var target := ParseInt(resolution.value).value;
      CandidatesEmpty(formats, target);
      var id := SelectedId(formats, target);
      if Truthy(id) {
        var s := id.value + "+bestaudio/" + id.value + "/best";
        var legacy := "bestvideo+bestaudio/best";
        assert s[|id.value|] == '+';
        assert |s| == |legacy| ==> |id.value| == 4 && legacy[4] == 'v';
      }
    }
  }

  /**
   * Tie-breaks on two formats: at target 480 a silent 480 beats a 500 with audio, since
   * closeness comes first; two 480s with equal distance go to the one with audio; at
   * target 720 a video-only 720 beats a 480 with audio and gets the best-audio fallback.
   */
  lemma SelectionExamples()
    ensures SelectedId([Format(Given(480), Given("v"), Given("none"), Given("a")),
                        Format(Given(500), Given("v"), Given("aac"), Given("b"))], 480) == Some("a")
    ensures SelectedId([Format(Given(480), Given("v"), Given("none"), Given("a")),
                        Format(Given(480), Given("v"), Given("aac"), Given("b"))], 480) == Some("b")
    ensures SelectedId([Format(Given(480), Given("v"), Given("a"), Given("x")),
                        Format(Given(720), Given("v"), Given("none"), Given("y"))], 720) == Some("y")
  {
    var f480 := Format(Given(480), Given("v"), Given("none"), Given("a"));
    var f500 := Format(Given(500), Given("v"), Given("aac"), Given("b"));
    var g480 := Format(Given(480), Given("v"), Given("aac"), Given("b"));
    assert [f480, f500][..1] == [f480] && [f480, g480][..1] == [f480];
    assert Candidates([f480, f500], 480) == [Candidate(Some("a"), 480, false, 0), Candidate(Some("b"), 500, true, 20)];
    assert Candidates([f480, g480], 480) == [Candidate(Some("a"), 480, false, 0), Candidate(Some("b"), 480, true, 0)];
    var x := Format(Given(480), Given("v"), Given("a"), Given("x"));
    var y := Format(Given(720), Given("v"), Given("none"), Given("y"));
    assert [x, y][..1] == [x];
    assert Candidates([x, y], 720) == [Candidate(Some("x"), 480, true, 240), Candidate(Some("y"), 720, false, 0)];
  }
}
