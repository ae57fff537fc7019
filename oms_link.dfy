/**
 * The link built by `goToOms`: a URL given with a scheme is cleaned by one
 * replacement of the non-global pattern /\/api\/?|\/$/ with "", a bare
 * instance name becomes "https://<name>.hotwax.io", and the commerce entry
 * point with the token is appended. Opening the link is not modelled.
 */
module OmsLink {
  import opened Wrappers

  const CommercePath: string := "/commerce/control/main?token="

  /** "/api" occurs in `s` at position `k`. */
  predicate ApiAt(s: string, k: nat) {
    k + 4 <= |s| && s[k] == '/' && s[k + 1] == 'a' && s[k + 2] == 'p' && s[k + 3] == 'i'
  }

  /**
   * Length of the match of /\/api\/?|\/$/ that starts at `k`, 0 when none:
   * the first alternative is tried first and its optional `/` is greedy; the
   * second matches only a `/` that is the last character.
   */
  function MatchLengthAt(s: string, k: nat): (n: nat)
    ensures n > 0 ==> k + n <= |s| && s[k] == '/'
  {
    if ApiAt(s, k) then (if k + 4 < |s| && s[k + 4] == '/' then 5 else 4)
    else if k + 1 == |s| && s[k] == '/' then 1
    else 0
  }

  /** Where a match begins and how many characters it spans. */
  datatype Match = Match(start: nat, length: nat)

  /** The leftmost match at or after position `from`. */
  function FirstMatchFrom(s: string, from: nat): (m: Option<Match>)
    ensures m.Some? ==> from <= m.value.start < |s| && 0 < m.value.length == MatchLengthAt(s, m.value.start)
    ensures m.Some? ==> forall j :: from <= j < m.value.start ==> MatchLengthAt(s, j) == 0
    ensures m.None? ==> forall j :: from <= j < |s| ==> MatchLengthAt(s, j) == 0
    decreases |s| - from
  {
    if from >= |s| then None
    else if MatchLengthAt(s, from) > 0 then Some(Match(from, MatchLengthAt(s, from)))
    else FirstMatchFrom(s, from + 1)
  }

  /** `s.replace(/\/api\/?|\/$/, "")`: deletes the leftmost match only, if there is one. */
  function ReplaceFirstMatch(s: string): (r: string)
    ensures |s| - 5 <= |r| <= |s|
    ensures (forall k :: 0 <= k < |s| ==> MatchLengthAt(s, k) == 0) ==> r == s
  {
    match FirstMatchFrom(s, 0)
    case None => s
    case Some(m) =>
      assert m.length <= 5;
      s[..m.start] + s[m.start + m.length..]
  }

  /**
   * The part of the link before the commerce path: a URL loses at most one
   * match of the pattern, and a bare name is put in the hotwax.io domain.
   */
  function OmsBase(oms: string): (base: string)
    ensures "http" <= oms ==> |oms| - 5 <= |base| <= |oms|
    ensures !("http" <= oms) ==> "https://" + oms <= base && |base| == |oms| + 18
  {
    if "http" <= oms then ReplaceFirstMatch(oms) else "https://" + oms + ".hotwax.io"
  }

  /** The link `goToOms(token, oms)` opens; it always ends with the commerce path and the token. */
  function OmsLink(token: string, oms: string): (link: string)
    ensures |CommercePath + token| <= |link|
    ensures link[|link| - |CommercePath + token|..] == CommercePath + token
  {
    var base, tail := OmsBase(oms), CommercePath + token;
    assert (base + tail)[|base|..] == tail;
    base + tail
  }

  /** A bare instance name is placed in the hotwax.io domain over https. */
  lemma BareNameLink(token: string, oms: string)
    requires !("http" <= oms)
    ensures OmsLink(token, oms) == "https://" + oms + ".hotwax.io" + CommercePath + token
  {
  }

  /**
   * For a URL, exactly the leftmost match is removed: if position `k` holds a
   * match and no earlier position does, the base is `oms` without those
   * characters, and nothing after them is touched.
   */
  lemma UrlLinkRemovesLeftmostMatch(token: string, oms: string, k: nat)
    requires "http" <= oms
    requires k < |oms| && MatchLengthAt(oms, k) > 0
    requires forall j :: 0 <= j < k ==> MatchLengthAt(oms, j) == 0
    ensures OmsBase(oms) == oms[..k] + oms[k + MatchLengthAt(oms, k)..]
    ensures OmsLink(token, oms) == oms[..k] + oms[k + MatchLengthAt(oms, k)..] + CommercePath + token
  {
  }

  /** A URL with neither "/api" nor a final `/` is used unchanged. */
  lemma UrlLinkWithoutMatch(token: string, oms: string)
    requires "http" <= oms
    requires forall k: nat :: !ApiAt(oms, k)
    requires oms[|oms| - 1] != '/'
    ensures OmsLink(token, oms) == oms + CommercePath + token
  {
  }

  /**
   * The intended use: an instance URL ending in "/api/", "/api" or "/" whose
   * remaining text has no "/api" is reduced to that remaining text.
   */
  lemma {:induction false} ApiSuffixStripped(b: string, tail: string)
    requires forall j: nat :: !ApiAt(b, j)
    requires tail == "/" || tail == "/api" || tail == "/api/"
    ensures ReplaceFirstMatch(b + tail) == b
  {
    var s := b + tail;
    forall j | 0 <= j < |b| ensures MatchLengthAt(s, j) == 0 {
      assert !ApiAt(b, j);
    }
    assert s[|b|..] == tail;
    assert MatchLengthAt(s, |b|) == |tail|;
    var m := FirstMatchFrom(s, 0);
    assert m.Some? && m.value.start == |b|;
    assert s[..|b|] == b;
  }

  /** Only one match is removed: "http://h/api/x/" keeps its final `/`. */
  lemma SingleRemovalExample()
    ensures ReplaceFirstMatch("http://h/api/x/") == "http://hx/"
  {
    var s := "http://h/api/x/";
    forall j | 0 <= j < 8 ensures MatchLengthAt(s, j) == 0 {
      assert s[j] != '/' || s[j + 1] != 'a';
    }
    assert ApiAt(s, 8) && s[12] == '/';
    UrlLinkRemovesLeftmostMatch("", s, 8);
  }

  /** The match may sit inside a path: "http://h/api/v1" becomes "http://hv1". */
  lemma InnerApiExample()
    ensures ReplaceFirstMatch("http://h/api/v1") == "http://hv1"
  {
    var s := "http://h/api/v1";
    forall j | 0 <= j < 8 ensures MatchLengthAt(s, j) == 0 {
      assert s[j] != '/' || s[j + 1] != 'a';
    }
    assert ApiAt(s, 8) && s[12] == '/';
    UrlLinkRemovesLeftmostMatch("", s, 8);
  }
}
