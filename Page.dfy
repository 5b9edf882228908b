/**
  What the script reads from the page it runs on: the location (for guard keys
  and for routing in `main`) and the body text (for the join page's wait
  advisories).
*/
module Page {
  import opened Text
  import opened Config
  import Seqs

  /** The parts of `location` the script reads. */
  datatype Location = Location(host: string, pathname: string, search: string)

  /** What a browser gives for a URL: a pathname without `?`, and a search that
      is empty or starts with `?`. */
  predicate WellFormedLocation(loc: Location)
  {
    && (forall i :: 0 <= i < |loc.pathname| ==> loc.pathname[i] != '?')
    && (loc.search == "" || loc.search[0] == '?')
  }

  // ----- getGuardKey -----

  /** `getGuardKey(prefix)` (and the join scheduler's `metaKey`): prefix, then
      pathname, then search; the host and the fragment are not part of it. */
  function GuardKey(prefix: string, loc: Location): (k: string)
    ensures prefix <= k && k[|prefix|..] == loc.pathname + loc.search
  {
    prefix + loc.pathname + loc.search
  }

  /** For one prefix, the key identifies the logical page (pathname and search)
      exactly. */
  lemma GuardKeyIdentifiesPage(prefix: string, l1: Location, l2: Location)
    requires WellFormedLocation(l1) && WellFormedLocation(l2)
    ensures GuardKey(prefix, l1) == GuardKey(prefix, l2)
        <==> l1.pathname == l2.pathname && l1.search == l2.search
  {
    if GuardKey(prefix, l1) == GuardKey(prefix, l2) {
      var a1, b1, a2, b2 := l1.pathname, l1.search, l2.pathname, l2.search;
      var t1, t2 := GuardKey(prefix, l1)[|prefix|..], GuardKey(prefix, l2)[|prefix|..];
      assert a1 + b1 == a2 + b2 by { assert t1 == t2; }
      var z := a1 + b1;
      assert forall i :: 0 <= i < |a2| ==> z[i] == a2[i] != '?';
      assert forall i :: 0 <= i < |a1| ==> z[i] == a1[i] != '?';
      assert b1 == "" || z[|a1|] == '?';
      assert b2 == "" || z[|a2|] == '?';
      assert |a1| == |a2|;
      assert a1 == z[..|a1|] && a2 == z[..|a2|];
      assert b1 == z[|a1|..] && b2 == z[|a2|..];
    }
  }

  /** No string starts with two prefixes neither of which is a prefix of the other. */
  lemma IncomparablePrefixes(p1: string, p2: string, z: string)
    requires !(p1 <= p2) && !(p2 <= p1)
    ensures !(p1 <= z && p2 <= z)
  {
  }

  lemma DifferAt(p1: string, p2: string, i: nat)
    requires i < |p1| && i < |p2| && p1[i] != p2[i]
    ensures !(p1 <= p2) && !(p2 <= p1)
  {
  }

  /** A key of the join scheduler's retry records. */
  predicate IsJoinKey(k: string)
  {
    GCP_JOIN_KEY_PREFIX <= k
  }

  /** A key of a one-shot guard (GCP result phase or X OAuth phase, and the
      GCP guard prefix that `runGcpPhase` computes). */
  predicate IsOneShotKey(k: string)
  {
    GCP_GUARD_PREFIX <= k || GCP_RESULT_GUARD_PREFIX <= k || X_GUARD_PREFIX <= k
  }

  /** Retry records and one-shot guards never share a key, so neither kind of
      write can disturb the other. */
  lemma JoinAndGuardKeysDisjoint(k: string)
    ensures !(IsJoinKey(k) && IsOneShotKey(k))
  {
    DifferAt(GCP_JOIN_KEY_PREFIX, GCP_GUARD_PREFIX, 16);
    IncomparablePrefixes(GCP_JOIN_KEY_PREFIX, GCP_GUARD_PREFIX, k);
    DifferAt(GCP_JOIN_KEY_PREFIX, GCP_RESULT_GUARD_PREFIX, 17);
    IncomparablePrefixes(GCP_JOIN_KEY_PREFIX, GCP_RESULT_GUARD_PREFIX, k);
    DifferAt(GCP_JOIN_KEY_PREFIX, X_GUARD_PREFIX, 13);
    IncomparablePrefixes(GCP_JOIN_KEY_PREFIX, X_GUARD_PREFIX, k);
  }

  /** The GCP result guard and the X OAuth guard never share a key either. */
  lemma OneShotGuardsDisjoint(l1: Location, l2: Location)
    ensures GuardKey(GCP_RESULT_GUARD_PREFIX, l1) != GuardKey(X_GUARD_PREFIX, l2)
    ensures GuardKey(GCP_RESULT_GUARD_PREFIX, l1) != GuardKey(GCP_GUARD_PREFIX, l2)
    ensures GuardKey(X_GUARD_PREFIX, l1) != GuardKey(GCP_GUARD_PREFIX, l2)
  {
    DifferAt(GCP_RESULT_GUARD_PREFIX, X_GUARD_PREFIX, 13);
    IncomparablePrefixes(GCP_RESULT_GUARD_PREFIX, X_GUARD_PREFIX, GuardKey(GCP_RESULT_GUARD_PREFIX, l1));
    DifferAt(GCP_RESULT_GUARD_PREFIX, GCP_GUARD_PREFIX, 16);
    IncomparablePrefixes(GCP_RESULT_GUARD_PREFIX, GCP_GUARD_PREFIX, GuardKey(GCP_RESULT_GUARD_PREFIX, l1));
    DifferAt(X_GUARD_PREFIX, GCP_GUARD_PREFIX, 13);
    IncomparablePrefixes(X_GUARD_PREFIX, GCP_GUARD_PREFIX, GuardKey(X_GUARD_PREFIX, l1));
  }

  // ----- new URLSearchParams(location.search).has(name) -----

  /** `s.split(sep)`. */
  function SplitOn(s: string, sep: char): (parts: seq<string>)
    ensures |parts| >= 1
    decreases |s|
  {
    var i := Seqs.FirstIndex(s, c => c == sep);
    if i == |s| then [s] else [s[..i]] + SplitOn(s[i + 1..], sep)
  }

  function HexDigit(c: char): int
  {
    if '0' <= c <= '9' then c as int - '0' as int
    else if 'a' <= c <= 'f' then c as int - 'a' as int + 10
    else if 'A' <= c <= 'F' then c as int - 'A' as int + 10
    else -1
  }

  /** The character a decoded byte contributes to a name: itself when ASCII.
      A byte of 0x80 or more belongs to a multi-byte UTF-8 sequence, which
      decodes to some non-ASCII character; U+FFFD stands for all of them, which
      is exact for comparisons with an ASCII name. */
  function ByteChar(b: int): char
    requires 0 <= b < 256
  {
    if b < 128 then b as char else '\U{FFFD}'
  }

  /** The form-urlencoded decoding of a name: `+` is a space, `%XY` a byte. */
  function DecodeName(s: string): string
    decreases |s|
  {
    if s == [] then []
    else if s[0] == '+' then " " + DecodeName(s[1..])
    else if s[0] == '%' && |s| >= 3 && HexDigit(s[1]) >= 0 && HexDigit(s[2]) >= 0 then
      [ByteChar(16 * HexDigit(s[1]) + HexDigit(s[2]))] + DecodeName(s[3..])
    else [s[0]] + DecodeName(s[1..])
  }

  /** The name of a `name=value` pair: everything before the first `=`. */
  function PairName(pair: string): string
  {
    pair[..Seqs.FirstIndex(pair, c => c == '=')]
  }

  /** `new URLSearchParams(search).has(name)`: a leading `?` is dropped, the rest
      split on `&`, empty pieces skipped, and the decoded names compared. */
  predicate HasQueryParam(search: string, name: string)
  {
    var query := if search != "" && search[0] == '?' then search[1..] else search;
    exists pair :: pair in SplitOn(query, '&') && pair != "" && DecodeName(PairName(pair)) == name
  }

  // ----- main: routing -----

  datatype PhaseName = Gcp | GcpResult | XOAuth

  /** The phases `main` runs for a location, in the order it runs them. */
  function Route(loc: Location): (r: seq<PhaseName>)
    ensures Gcp in r <==> loc.host == GCP_HOST
    ensures GcpResult in r <==> loc.host == GCP_HOST
    ensures XOAuth in r <==> loc.host == X_HOST && loc.pathname == X_OAUTH_PATH && HasQueryParam(loc.search, X_OAUTH_PARAM)
    ensures |r| <= 2 && (|r| == 2 ==> r == [Gcp, GcpResult])
  {
    if loc.host == GCP_HOST then [Gcp, GcpResult]
    else if loc.host == X_HOST && loc.pathname == X_OAUTH_PATH && HasQueryParam(loc.search, X_OAUTH_PARAM) then [XOAuth]
    else []
  }

  // ----- detectGcpJoinWaitMessage -----

  /** `detectGcpJoinWaitMessage()`, given `document.body.innerText` (the empty
      string when there is no body). */
  predicate DetectWaitMessage(bodyText: string)
  {
    var s := Normalize(bodyText);
    Contains(s, GCP_JOIN_NOT_MET) || Contains(s, GCP_JOIN_WAIT_10S)
  }

  /** Either advisory, anywhere in the body text, is detected whatever
      whitespace surrounds it. */
  lemma WaitMessageDetected(before: string, advisory: string, after: string)
    requires advisory == GCP_JOIN_NOT_MET || advisory == GCP_JOIN_WAIT_10S
    ensures DetectWaitMessage(before + advisory + after)
  {
    if advisory == GCP_JOIN_NOT_MET {
      AdvisoryNotMetHasNoSpace();
    } else {
      AdvisoryWaitHasNoSpace();
    }
    NormalizeKeepsWord(before, advisory, after);
  }

  lemma AdvisoryNotMetHasNoSpace()
    ensures NoSpace(GCP_JOIN_NOT_MET)
  {
  }

  lemma AdvisoryWaitHasNoSpace()
    ensures NoSpace(GCP_JOIN_WAIT_10S)
  {
  }
}
