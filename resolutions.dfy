/**
 * The resolutions `get_video_info` reports: the distinct truthy heights of the probed
 * formats in ascending order, and the quality list offered to the user.
 */
module Resolutions {
  import opened Formats

  predicate StrictlyAscending(s: seq<int>) {
    forall i, j | 0 <= i < j < |s| :: s[i] < s[j]
  }

  /** The set `resolutions` built by the loop over the formats. */
  function HeightSet(formats: seq<Format>): (r: set<int>)
    ensures forall h :: h in r <==> h != 0 && exists i | 0 <= i < |formats| :: formats[i].height == Given(h)
  {
    if formats == [] then {}
    else
      var last := formats[|formats| - 1];
      var init := formats[..|formats| - 1];
      assert forall i | 0 <= i < |init| :: init[i] == formats[i];
      HeightSet(init) + if HasHeight(last) then {last.height.value} else {}
  }

  lemma SetEmptyOrInhabited(s: set<int>)
    ensures s == {} || exists x :: x in s
  {
    if forall x :: x !in s {
      assert s == {};
    }
  }

  /** `m` is the least element of `s`. */
  predicate IsLeast(m: int, s: set<int>) {
    m in s && forall y | y in s :: m <= y
  }

  /** Every non-empty finite set of integers has a least element. */
  lemma {:induction false} MinExists(s: set<int>)
    requires s != {}
    ensures exists m :: IsLeast(m, s)
    decreases s
  {
    SetEmptyOrInhabited(s);
    var x :| x in s;
    var rest := s - {x};
    SetEmptyOrInhabited(rest);
    if rest == {} {
      forall y | y in s
        ensures x <= y
      {
        assert y !in rest;
      }
      assert IsLeast(x, s);
    } else {
      MinExists(rest);
      var m :| IsLeast(m, rest);
      var least := if x < m then x else m;
      forall y | y in s
        ensures least <= y
      {
        if y != x {
          assert y in rest;
        }
      }
      assert IsLeast(least, s);
    }
  }

  /** `sorted(list(s))` for a set of integers. */
  function SortSet(s: set<int>): (r: seq<int>)
    ensures StrictlyAscending(r)
    ensures forall x :: x in r <==> x in s
    decreases s
  {
    if s == {} then []
    else
      MinExists(s);
      var m :| IsLeast(m, s);
      [m] + SortSet(s - {m})
  }

  /** Two sequences with the same elements are both empty or both non-empty. */
  lemma SameElementsEmpty(a: seq<int>, b: seq<int>)
    requires forall x :: x in a <==> x in b
    ensures a == [] <==> b == []
  {
    if a != [] {
      var v := a[0];
      assert v in a && v in b;
    }
    if b != [] {
      var v := b[0];
      assert v in b && v in a;
    }
  }

  /** A strictly ascending sequence is determined by its elements. */
  lemma {:induction false} AscendingUnique(a: seq<int>, b: seq<int>)
    requires StrictlyAscending(a) && StrictlyAscending(b)
    requires forall x :: x in a <==> x in b
    ensures a == b
  {
    SameElementsEmpty(a, b);
    if a != [] {
      var x, y := a[0], b[0];
      assert x in a && y in b;
      assert y in a && x in b;
      forall v
        ensures v in a[1..] <==> v in b[1..]
      {
        assert v in a[1..] <==> v in a && v != x;
        assert v in b[1..] <==> v in b && v != y;
      }
      AscendingUnique(a[1..], b[1..]);
      assert a == [a[0]] + a[1..] && b == [b[0]] + b[1..];
    }
  }

  /** The height collection loop followed by `sorted(list(resolutions))`. */
  method CollectHeights(formats: seq<Format>) returns (heights: seq<int>)
    ensures StrictlyAscending(heights)
    ensures forall h :: h in heights <==> h != 0 && exists i | 0 <= i < |formats| :: formats[i].height == Given(h)
    ensures heights == SortSet(HeightSet(formats))
  {
    var resolutions: set<int> := {};
    for i := 0 to |formats|
      invariant resolutions == HeightSet(formats[..i])
    {
      var height := formats[i].height;
      if HasHeight(formats[i]) {
        resolutions := resolutions + {height.value};
      }
      assert formats[..i + 1][..i] == formats[..i];
    }
    assert formats[..|formats|] == formats;
    heights := SortSet(resolutions);
  }

  /** The standard resolutions, each with the height `int(res)` it stands for. */
  const StandardTiers: seq<(string, int)> := [("480", 480), ("720", 720)]

  /** The list offered when no standard resolution is reached. */
  const FallbackResolutions: seq<string> := ["360", "480", "720"]

  /** `any(v <= ar for ar in heights)`. */
  predicate Reaches(heights: seq<int>, v: int) {
    exists h | h in heights :: v <= h
  }

  /** The list comprehension over the standard resolutions, in their order. */
  function KeptTiers(tiers: seq<(string, int)>, heights: seq<int>): seq<string> {
    if tiers == [] then []
    else (if Reaches(heights, tiers[0].1) then [tiers[0].0] else []) + KeptTiers(tiers[1..], heights)
  }

  /** The quality list shown to the user for the given available heights. */
  function DisplayResolutions(heights: seq<int>): (r: seq<string>)
    ensures r != []
    ensures "720" in r ==> "480" in r
  {
    KeptStandardTiers(heights);
    var kept := KeptTiers(StandardTiers, heights);
    if kept == [] then FallbackResolutions else kept
  }

  lemma KeptStandardTiers(heights: seq<int>)
    ensures KeptTiers(StandardTiers, heights)
      == (if Reaches(heights, 480) then ["480"] else []) + (if Reaches(heights, 720) then ["720"] else [])
  {
    var tail := StandardTiers[1..];
    assert StandardTiers[0] == ("480", 480) && tail == [("720", 720)] && tail[1..] == [];
    assert KeptTiers(tail, heights) == (if Reaches(heights, 720) then ["720"] else []) + KeptTiers(tail[1..], heights);
  }

  /** The three possible quality lists and when each one is shown. */
  lemma DisplayResolutionsCases(heights: seq<int>)
    ensures !Reaches(heights, 480) ==> DisplayResolutions(heights) == ["360", "480", "720"]
    ensures Reaches(heights, 480) && !Reaches(heights, 720) ==> DisplayResolutions(heights) == ["480"]
    ensures Reaches(heights, 720) ==> DisplayResolutions(heights) == ["480", "720"]
  {
    KeptStandardTiers(heights);
  }

  /** A standard resolution is listed without the fallback exactly when some height reaches it. */
  lemma DisplayKeepsReachedTiers(heights: seq<int>)
    requires Reaches(heights, 480)
    ensures forall k | 0 <= k < |StandardTiers| :: StandardTiers[k].0 in DisplayResolutions(heights) <==> Reaches(heights, StandardTiers[k].1)
  {
    DisplayResolutionsCases(heights);
  }

  /** The formats of the deduplication example: heights 720, 480, 720 and 360. */
  function ExampleFormats(): seq<Format> {
    [Format(Given(720), Given("v"), Given("a"), Given("a")),
     Format(Given(480), Given("v"), Given("a"), Given("b")),
     Format(Given(720), Given("v"), Given("none"), Given("c")),
     Format(Given(360), Given("v"), Given("a"), Given("d"))]
  }

  /** The example's repeated 720 is collected once. */
  lemma ExampleHeightSet()
    ensures HeightSet(ExampleFormats()) == {720, 480, 360}
  {
    var fs := ExampleFormats();
    assert fs[..3][..2][..1][..0] == [];
    assert HeightSet(fs[..1]) == {720};
    assert HeightSet(fs[..2]) == {720, 480} by { assert fs[..2][..1] == fs[..1]; }
    assert HeightSet(fs[..3]) == {720, 480} by { assert fs[..3][..2] == fs[..2]; }
    assert fs[..4] == fs;
  }

  /** Heights `[720, 480, 720, 360]` collapse to `[360, 480, 720]`. */
  lemma DeduplicationExample()
    ensures SortSet(HeightSet(ExampleFormats())) == [360, 480, 720]
  {
    ExampleHeightSet();
    var r := SortSet({720, 480, 360});
    assert forall x :: x in r <==> x in [360, 480, 720];
    AscendingUnique(r, [360, 480, 720]);
  }
}
