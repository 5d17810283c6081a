/**
 * The message filter that recognises YouTube Shorts links: an unanchored search for
 * `(https?://)?(www\.)?(youtube\.com/shorts/|youtu\.be/shorts/)[^\s]+`.
 */
module ShortsLink {
  import opened Wrappers
  import opened Text

  /** The two alternatives of the third group, with their dots taken literally. */
  const Markers: seq<string> := ["youtube.com/shorts/", "youtu.be/shorts/"]

  /** The six texts the optional groups `(https?://)?(www\.)?` can match, the empty one first. */
  const Prefixes: seq<string> := ["", "www.", "http://", "http://www.", "https://", "https://www."]

  /** `\s` in a Python `str` pattern: the characters for which `str.isspace()` holds. */
  predicate IsWhitespace(c: char) {
    || '\t' <= c <= '\r'
    || '\U{1C}' <= c <= '\U{1F}'
    || c == ' '
    || c == '\U{85}'
    || c == '\U{A0}'
    || c == '\U{1680}'
    || '\U{2000}' <= c <= '\U{200A}'
    || c == '\U{2028}'
    || c == '\U{2029}'
    || c == '\U{202F}'
    || c == '\U{205F}'
    || c == '\U{3000}'
  }

  /** `[^\s]+` can match from index `k`: a character is there and it is not whitespace. */
  predicate NonSpaceAt(t: string, k: int) {
    0 <= k < |t| && !IsWhitespace(t[k])
  }

  /** One of `markers` occurs at `j` and is directly followed by a non-whitespace character. */
  predicate LinkAt(t: string, j: int, markers: seq<string>) {
    exists m | m in markers :: HasAt(t, j, m) && NonSpaceAt(t, j + |m|)
  }

  /** The pattern matches from index `i`: one of `prefixes`, then a marker and `[^\s]+`. */
  predicate MatchAt(t: string, i: int, prefixes: seq<string>, markers: seq<string>) {
    exists p | p in prefixes :: HasAt(t, i, p) && LinkAt(t, i + |p|, markers)
  }

  /** `re.search(pattern, t)` finds a match somewhere in `t`. */
  predicate Search(t: string, prefixes: seq<string>, markers: seq<string>) {
    exists i | 0 <= i <= |t| :: MatchAt(t, i, prefixes, markers)
  }

  /** `IsYouTubeShorts.__call__` on a message whose text may be missing. */
  function IsYouTubeShorts(text: Option<string>): (accepted: bool)
    ensures accepted ==> text.Some? && text.value != ""
  {
    if text.None? || text.value == "" then false else Search(text.value, Prefixes, Markers)
  }

  /** With an optional prefix group, searching for the full pattern is searching for a link. */
  lemma SearchFindsLink(t: string, prefixes: seq<string>, markers: seq<string>)
    requires "" in prefixes
    ensures Search(t, prefixes, markers) <==> exists j | 0 <= j <= |t| :: LinkAt(t, j, markers)
  {
    if Search(t, prefixes, markers) {
      var i :| 0 <= i <= |t| && MatchAt(t, i, prefixes, markers);
      var p :| p in prefixes && HasAt(t, i, p) && LinkAt(t, i + |p|, markers);
      assert 0 <= i + |p| <= |t|;
    }
    if exists j | 0 <= j <= |t| :: LinkAt(t, j, markers) {
      var j :| 0 <= j <= |t| && LinkAt(t, j, markers);
      assert HasAt(t, j, "");
      assert MatchAt(t, j, prefixes, markers);
    }
  }

  /** A link keeps its place when text is added on both sides. */
  lemma LinkShift(a: string, t: string, b: string, j: int, markers: seq<string>)
    requires LinkAt(t, j, markers)
    ensures LinkAt(a + t + b, |a| + j, markers)
  {
    var m :| m in markers && HasAt(t, j, m) && NonSpaceAt(t, j + |m|);
    HasAtShift(a, t, b, j, m);
    var u := a + t + b;
    assert u[|a| + j + |m|] == t[j + |m|];
  }

  /** A link that starts after a prefix is a link of the rest of the text. */
  lemma LinkUnshift(p: string, u: string, j: int, markers: seq<string>)
    requires LinkAt(p + u, j, markers) && j >= |p|
    ensures LinkAt(u, j - |p|, markers)
  {
    var t := p + u;
    var m :| m in markers && HasAt(t, j, m) && NonSpaceAt(t, j + |m|);
    var j' := j - |p|;
    assert u[j'..j' + |m|] == t[j..j + |m|];
    assert u[j' + |m|] == t[j + |m|];
  }

  /** The empty text is one of the prefixes: both optional groups may match nothing. */
  lemma EmptyPrefix()
    ensures "" in Prefixes
  {
    assert Prefixes[0] == "";
  }

  /** A text holding a link is not empty. */
  lemma LinkMeansNonEmpty(t: string)
    ensures (exists j | 0 <= j <= |t| :: LinkAt(t, j, Markers)) ==> t != ""
  {
    if exists j | 0 <= j <= |t| :: LinkAt(t, j, Markers) {
      var j :| 0 <= j <= |t| && LinkAt(t, j, Markers);
      LinkStartsWithY(t, j);
    }
  }

  /** The verdict is the search for a marker followed by a non-whitespace character. */
  lemma AcceptanceRule(t: string)
    ensures IsYouTubeShorts(Some(t)) <==> exists j | 0 <= j <= |t| :: LinkAt(t, j, Markers)
  {
    EmptyPrefix();
    SearchFindsLink(t, Prefixes, Markers);
    LinkMeansNonEmpty(t);
  }

  /** A match in a text stays a match when the text is quoted inside a longer one. */
  lemma ClosedUnderExtension(a: string, t: string, b: string)
    requires IsYouTubeShorts(Some(t))
    ensures IsYouTubeShorts(Some(a + t + b))
  {
    AcceptanceRule(t);
    var j :| 0 <= j <= |t| && LinkAt(t, j, Markers);
    LinkShift(a, t, b, j, Markers);
    AcceptanceRule(a + t + b);
  }

  /** No character of a prefix can start a marker. */
  lemma PrefixHasNoY(p: string)
    requires p in Prefixes
    ensures forall k | 0 <= k < |p| :: p[k] != 'y'
  {
  }

  /** Every marker starts with `y`. */
  lemma MarkersStartWithY(m: string)
    requires m in Markers
    ensures |m| > 0 && m[0] == 'y'
  {
  }

  /** A link starts with a lower-case `y`. */
  lemma LinkStartsWithY(t: string, j: int)
    requires LinkAt(t, j, Markers)
    ensures 0 <= j < |t| && t[j] == 'y'
  {
    var m :| m in Markers && HasAt(t, j, m) && NonSpaceAt(t, j + |m|);
    MarkersStartWithY(m);
    assert t[j] == t[j..j + |m|][0];
  }

  /** A text without a lower-case `y` holds no marker, so it is rejected: matching is case-sensitive. */
  lemma NoYRejected(t: string)
    requires forall k | 0 <= k < |t| :: t[k] != 'y'
    ensures !IsYouTubeShorts(Some(t))
  {
    AcceptanceRule(t);
    forall j | 0 <= j <= |t|
      ensures !LinkAt(t, j, Markers)
    {
      if LinkAt(t, j, Markers) {
        LinkStartsWithY(t, j);
      }
    }
  }

  /** No character that a prefix contributes to a text is a `y`. */
  lemma PrefixPartHasNoY(p: string, u: string)
    requires p in Prefixes
    ensures forall j | 0 <= j < |p| :: (p + u)[j] != 'y'
  {
    PrefixHasNoY(p);
  }

  /** Every marker has an escaped, hence literal, dot at index 5 or 7. */
  lemma MarkersHaveDot(m: string)
    requires m in Markers
    ensures |m| > 7 && (m[5] == '.' || m[7] == '.')
  {
  }

  /** A link holds a literal dot. */
  lemma LinkHasDot(t: string, j: int)
    requires LinkAt(t, j, Markers)
    ensures exists k | 0 <= k < |t| :: t[k] == '.'
  {
    var m :| m in Markers && HasAt(t, j, m) && NonSpaceAt(t, j + |m|);
    MarkersHaveDot(m);
    assert t[j + 5] == t[j..j + |m|][5] && t[j + 7] == t[j..j + |m|][7];
  }

  /** A text without a dot is rejected: `youtube com/shorts/x` or `youtubeXcom/shorts/x` never match. */
  lemma NoDotRejected(t: string)
    requires forall k | 0 <= k < |t| :: t[k] != '.'
    ensures !IsYouTubeShorts(Some(t))
  {
    AcceptanceRule(t);
    forall j | 0 <= j <= |t|
      ensures !LinkAt(t, j, Markers)
    {
      if LinkAt(t, j, Markers) {
        LinkHasDot(t, j);
      }
    }
  }

  /** Writing `http://`, `https://` or `www.` in front never changes the verdict. */
  lemma OptionalPrefixesIrrelevant(p: string, u: string)
    requires p in Prefixes
    ensures IsYouTubeShorts(Some(p + u)) == IsYouTubeShorts(Some(u))
  {
    var t := p + u;
    assert t == p + u + "";
    if IsYouTubeShorts(Some(u)) {
      ClosedUnderExtension(p, u, "");
    }
    if IsYouTubeShorts(Some(t)) {
      AcceptanceRule(t);
      var j :| 0 <= j <= |t| && LinkAt(t, j, Markers);
      LinkStartsWithY(t, j);
      PrefixPartHasNoY(p, u);
      LinkUnshift(p, u, j, Markers);
      AcceptanceRule(u);
    }
  }

  /** No marker occurs inside a marker ending before the marker's last character. */
  lemma MarkerNotInsideMarker(m: string, m': string, j: int)
    requires m in Markers && m' in Markers
    requires 0 <= j && j + |m'| < |m|
    ensures m[j..j + |m'|] != m'
  {
    assert m == Markers[0] && m' == Markers[1];
    assert m'[0] == 'y' && m'[5] == '.';
    assert m[0] == 'y' && m[5] == 'b' && m[1] != 'y' && m[2] != 'y';
    assert m[j..j + |m'|][0] == m[j] && m[j..j + |m'|][5] == m[j + 5];
  }

  /** In a marker followed by other text, no marker ends before the first one does. */
  lemma NoEarlyMarker(m: string, ws: string, m': string)
    requires m in Markers && m' in Markers
    ensures forall j | 0 <= j && j + |m'| < |m| :: !HasAt(m + ws, j, m')
  {
    forall j | 0 <= j && j + |m'| < |m|
      ensures !HasAt(m + ws, j, m')
    {
      MarkerNotInsideMarker(m, m', j);
      assert (m + ws)[j..j + |m'|] == m[j..j + |m'|];
    }
  }

  /** A marker with only whitespace, or nothing, after it is not a link. */
  lemma BareMarkerRejected(m: string, ws: string)
    requires m in Markers
    requires forall k | 0 <= k < |ws| :: IsWhitespace(ws[k])
    ensures !IsYouTubeShorts(Some(m + ws))
  {
    var t := m + ws;
    AcceptanceRule(t);
    forall j | 0 <= j <= |t|
      ensures !LinkAt(t, j, Markers)
    {
      forall m' | m' in Markers && HasAt(t, j, m')
        ensures !NonSpaceAt(t, j + |m'|)
      {
        NoEarlyMarker(m, ws, m');
        var k := j + |m'|;
        if k < |t| {
          assert t[k] == ws[k - |m|];
        }
      }
    }
  }

  /** A marker and a non-whitespace character after one of the prefixes is a match at the start. */
  lemma LinkAfterPrefix(p: string, m: string, id: string, prefixes: seq<string>, markers: seq<string>)
    requires p in prefixes && m in markers
    requires id != [] && !IsWhitespace(id[0])
    ensures Search(p + m + id, prefixes, markers)
  {
    var u := m + id;
    assert HasAt(u, 0, m) by { assert u[..|m|] == m; }
    assert NonSpaceAt(u, |m|) by { assert u[|m|] == id[0]; }
    LinkShift(p, u, "", 0, markers);
    var t := p + m + id;
    assert p + u + "" == t;
    assert HasAt(t, 0, p) by { assert t[..|p|] == p; }
    assert MatchAt(t, 0, prefixes, markers);
  }

  /** A Shorts marker followed by a video id is accepted, with or without a scheme. */
  lemma LinksAccepted(p: string, m: string, id: string)
    requires p in Prefixes && m in Markers
    requires id != [] && !IsWhitespace(id[0])
    ensures IsYouTubeShorts(Some(p + m + id))
  {
    LinkAfterPrefix(p, m, id, Prefixes, Markers);
    MarkersStartWithY(m);
  }
}
