/** Session bootstrap in meta.py: the tokens captured from the Ad Library
    landing page by six pattern searches. Each pattern is a literal marker
    followed by a captured run and a terminator: a run of non-quote
    characters closed by `"`, or a run of digits closed by `,`. The HTTP
    fetch itself is not modelled; the page body and status are inputs. */
module PageParams {
  import opened Maybe
  import opened Text
  import Protocol

  /** The two shapes of captured run */
  datatype RunKind = Quoted | Digits

  predicate ValueChar(kind: RunKind, c: char) {
    match kind
    case Quoted => c != '"'
    case Digits => IsDigit(c)
  }

  function Terminator(kind: RunKind): char {
    match kind
    case Quoted => '"'
    case Digits => ','
  }

  /** The length of the longest run of value characters starting at `j`,
      which is what the greedy `[^"]+` and `\d+` consume */
  function RunLen(text: string, kind: RunKind, j: nat): (n: nat)
    requires j <= |text|
    ensures j + n <= |text|
    ensures forall k :: j <= k < j + n ==> ValueChar(kind, text[k])
    ensures j + n < |text| ==> !ValueChar(kind, text[j + n])
    decreases |text| - j
  {
    if j == |text| || !ValueChar(kind, text[j]) then 0 else 1 + RunLen(text, kind, j + 1)
  }

  /** The pattern matches at position `i`: the marker, a non-empty run, and
      the terminator right after the run (backtracking to a shorter run can
      never meet the terminator, which is not a value character) */
  predicate MatchAt(text: string, marker: string, kind: RunKind, i: nat) {
    && i + |marker| <= |text|
    && text[i..i + |marker|] == marker
    && var n := RunLen(text, kind, i + |marker|);
       n > 0 && i + |marker| + n < |text| && text[i + |marker| + n] == Terminator(kind)
  }

  /** The captured group of a match at `i` */
  function CaptureAt(text: string, marker: string, kind: RunKind, i: nat): (v: string)
    requires MatchAt(text, marker, kind, i)
    ensures v != [] && forall k :: 0 <= k < |v| ==> ValueChar(kind, v[k])
  {
    var j := i + |marker|;
    text[j..j + RunLen(text, kind, j)]
  }

  /** `r` is what `re.search(...).group(1)` gives: the capture of the
      leftmost match, or nothing when the pattern matches nowhere */
  ghost predicate IsFirstCapture(text: string, marker: string, kind: RunKind, r: Option<string>) {
    && (r.Some? ==> exists pos: nat :: && MatchAt(text, marker, kind, pos)
                                       && r.value == CaptureAt(text, marker, kind, pos)
                                       && forall i: nat :: i < pos ==> !MatchAt(text, marker, kind, i))
    && (r.None? ==> forall i: nat :: !MatchAt(text, marker, kind, i))
  }

  /** The leftmost-match search */
  method Search(text: string, marker: string, kind: RunKind) returns (r: Option<string>, pos: nat)
    ensures r.Some? ==> MatchAt(text, marker, kind, pos) && r.value == CaptureAt(text, marker, kind, pos)
    ensures r.Some? ==> forall i: nat :: i < pos ==> !MatchAt(text, marker, kind, i)
    ensures r.None? ==> forall i: nat :: !MatchAt(text, marker, kind, i)
  {
    pos := 0;
    while pos < |text|
      invariant pos <= |text|
      invariant forall i: nat :: i < pos ==> !MatchAt(text, marker, kind, i)
    {
      if MatchAt(text, marker, kind, pos) {
        return Some(CaptureAt(text, marker, kind, pos)), pos;
      }
      pos := pos + 1;
    }
    return None, 0;
  }

  const DtsgMarker: string := "\"DTSGInitData\",[],{\"token\":\""
  const RevisionMarker: string := "\"client_revision\":"
  const LsdMarker: string := "\"LSD\",[],{\"token\":\""
  const HasteMarker: string := "\"haste_session\":\""
  const SpinRMarker: string := "\"__spin_r\":"
  const SpinBMarker: string := "\"__spin_b\":\""

  /** `_extract_page_params` on the landing page's status and text: each
      token is the first capture of its pattern, or absent; only a 200
      response is searched. The request counter starts at zero. */
  method ExtractPageParams(status: int, page: string) returns (s: Protocol.Session)
    ensures s.counter == 0
    ensures status != 200 ==> s.fbDtsg.None? && s.lsd.None? && s.clientRevision.None?
                              && s.hasteSession.None? && s.spinR.None? && s.spinB.None?
    ensures status == 200 ==> IsFirstCapture(page, DtsgMarker, Quoted, s.fbDtsg)
    ensures status == 200 ==> IsFirstCapture(page, RevisionMarker, Digits, s.clientRevision)
    ensures status == 200 ==> IsFirstCapture(page, LsdMarker, Quoted, s.lsd)
    ensures status == 200 ==> IsFirstCapture(page, HasteMarker, Quoted, s.hasteSession)
    ensures status == 200 ==> IsFirstCapture(page, SpinRMarker, Digits, s.spinR)
    ensures status == 200 ==> IsFirstCapture(page, SpinBMarker, Quoted, s.spinB)
  {
    if status != 200 {
      return Protocol.Session(None, None, None, None, None, None, 0);
    }
    var dtsg, p1 := Search(page, DtsgMarker, Quoted);
    var rev, p2 := Search(page, RevisionMarker, Digits);
    var lsd, p3 := Search(page, LsdMarker, Quoted);
    var hsi, p4 := Search(page, HasteMarker, Quoted);
    var spinR, p5 := Search(page, SpinRMarker, Digits);
    var spinB, p6 := Search(page, SpinBMarker, Quoted);
    s := Protocol.Session(dtsg, lsd, rev, hsi, spinR, spinB, 0);
  }

  /** A captured token is never empty and holds no quote; a captured number
      is all digits */
  lemma CapturedShape(text: string, marker: string, kind: RunKind, r: Option<string>)
    requires IsFirstCapture(text, marker, kind, r)
    requires r.Some?
    ensures r.value != []
    ensures kind == Quoted ==> '"' !in r.value
    ensures kind == Digits ==> IsDigitString(r.value)
  {
    var pos: nat :| MatchAt(text, marker, kind, pos) && r.value == CaptureAt(text, marker, kind, pos);
    assert forall k :: 0 <= k < |r.value| ==> ValueChar(kind, r.value[k]);
  }

  /** A page that contains marker, token and terminator yields that token
      when no earlier position matches */
  lemma {:induction false} FindsPlantedToken(prefix: string, marker: string, token: string, kind: RunKind, suffix: string)
    requires token != [] && forall k :: 0 <= k < |token| ==> ValueChar(kind, token[k])
    requires forall i: nat :: i < |prefix| ==> !MatchAt(prefix + marker + token + [Terminator(kind)] + suffix, marker, kind, i)
    ensures IsFirstCapture(prefix + marker + token + [Terminator(kind)] + suffix, marker, kind, Some(token))
  {
    var text := prefix + marker + token + [Terminator(kind)] + suffix;
    var i, j := |prefix|, |prefix| + |marker|;
    assert text[i..j] == marker;
    RunLenOfToken(text, kind, j, |token|);
    assert text[j..j + |token|] == token;
    assert MatchAt(text, marker, kind, i);
  }

  lemma {:induction false} RunLenOfToken(text: string, kind: RunKind, j: nat, n: nat)
    requires j + n < |text|
    requires forall k :: j <= k < j + n ==> ValueChar(kind, text[k])
    requires !ValueChar(kind, text[j + n])
    ensures RunLen(text, kind, j) == n
    decreases n
  {
    if n > 0 {
      RunLenOfToken(text, kind, j + 1, n - 1);
    }
  }
}
