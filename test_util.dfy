/**
 * The string helpers of the integration-test utilities: the two unit-name
 * formatters, the shape of a random node name, and the removal of ANSI
 * escape sequences from captured command output.
 */
module TestUtil {

  import opened Wrappers

  /** The escape character that starts every ANSI sequence. */
  const ESC: char := 27 as char

  const DepPrefix: string := "bluechi-dep@"
  const ProxyPrefix: string := "bluechi-proxy@"

  /** The alphabet `string.ascii_lowercase`. */
  const Letters: string := "abcdefghijklmnopqrstuvwxyz"

  // ---------------------------------------------------------------------------
  // Unit-name formatters
  // ---------------------------------------------------------------------------

  /** Name of the dependency-proxy service instance for `unitName`. */
  function DepServiceName(unitName: string): (r: string)
    ensures |r| == |DepPrefix| + |unitName|
    ensures r[..|DepPrefix|] == DepPrefix && r[|DepPrefix|..] == unitName
  {
    DepPrefix + unitName
  }

  /** Name of the proxy service instance for `unitName` on node `nodeName`. */
  function ProxyServiceName(nodeName: string, unitName: string): (r: string)
    ensures |r| == |ProxyPrefix| + |nodeName| + 1 + |unitName|
    ensures r[..|ProxyPrefix|] == ProxyPrefix
    ensures r[|ProxyPrefix|..|ProxyPrefix| + |nodeName|] == nodeName
    ensures r[|ProxyPrefix| + |nodeName|] == '_'
    ensures r[|ProxyPrefix| + |nodeName| + 1..] == unitName
  {
    ProxyPrefix + nodeName + "_" + unitName
  }

  /** Recovers the unit name from a dependency-service name, if it is one. */
  function ParseDepServiceName(s: string): (r: Option<string>)
    ensures r.Some? <==> |s| >= |DepPrefix| && s[..|DepPrefix|] == DepPrefix
  {
    if |s| >= |DepPrefix| && s[..|DepPrefix|] == DepPrefix then Some(s[|DepPrefix|..]) else None
  }

  /** Index of the first `_` in `s` at or after `i`, or `|s|` if there is none. */
  function FirstUnderscore(s: string, i: nat): (k: nat)
    requires i <= |s|
    ensures i <= k <= |s|
    ensures forall j :: i <= j < k ==> s[j] != '_'
    ensures k < |s| ==> s[k] == '_'
    decreases |s| - i
  {
    if i == |s| || s[i] == '_' then i else FirstUnderscore(s, i + 1)
  }

  /**
   * Splits a proxy-service name at the first `_` after the prefix into the
   * node name and the unit name.
   */
  function ParseProxyServiceName(s: string): (r: Option<(string, string)>)
    ensures r.Some? ==> ProxyServiceName(r.value.0, r.value.1) == s
    ensures r.Some? ==> '_' !in r.value.0
  {
    if |s| >= |ProxyPrefix| && s[..|ProxyPrefix|] == ProxyPrefix then
      var k := FirstUnderscore(s, |ProxyPrefix|);
      if k < |s| then
        var node, unit := s[|ProxyPrefix|..k], s[k + 1..];
        assert s == s[..|ProxyPrefix|] + s[|ProxyPrefix|..k] + [s[k]] + s[k + 1..];
        Some((node, unit))
      else None
    else None
  }

  /** The dependency-service name determines the unit name. */
  lemma DepServiceNameRoundTrip(unitName: string)
    ensures ParseDepServiceName(DepServiceName(unitName)) == Some(unitName)
  {
  }

  /** A node name without `_` can be read back from a proxy-service name. */
  lemma {:induction false} ProxyServiceNameRoundTrip(nodeName: string, unitName: string)
    requires '_' !in nodeName
    ensures ParseProxyServiceName(ProxyServiceName(nodeName, unitName)) == Some((nodeName, unitName))
  {
    var s := ProxyServiceName(nodeName, unitName);
    var m := |ProxyPrefix| + |nodeName|;
    forall j | |ProxyPrefix| <= j < m ensures s[j] != '_' {
      assert s[j] == nodeName[j - |ProxyPrefix|];
    }
    FirstUnderscoreAt(s, |ProxyPrefix|, m);
  }

  /** The first `_` at or after `i` is the one at `m` when none comes before. */
  lemma {:induction false} FirstUnderscoreAt(s: string, i: nat, m: nat)
    requires i <= m < |s| && s[m] == '_'
    requires forall j :: i <= j < m ==> s[j] != '_'
    ensures FirstUnderscore(s, i) == m
    decreases m - i
  {
    if i < m {
      FirstUnderscoreAt(s, i + 1, m);
    }
  }

  /**
   * A node name containing `_` makes the proxy-service name ambiguous: the
   * part before an `_` at index `i` as node, with the rest moved into the
   * unit name, gives the same service name for a different pair.
   */
  lemma ProxyServiceNameAmbiguous(nodeName: string, unitName: string, i: nat)
    requires i < |nodeName| && nodeName[i] == '_'
    ensures ProxyServiceName(nodeName[..i], nodeName[i + 1..] + "_" + unitName) == ProxyServiceName(nodeName, unitName)
    ensures (nodeName[..i], nodeName[i + 1..] + "_" + unitName) != (nodeName, unitName)
  {
    assert nodeName == nodeName[..i] + "_" + nodeName[i + 1..];
  }

  // ---------------------------------------------------------------------------
  // Random names
  // ---------------------------------------------------------------------------

  /**
   * A name of `nameLength` letters; the k-th letter is the one that the k-th
   * draw of the random generator, `draw(k)`, picks out of `Letters`.
   */
  function RandomName(nameLength: int, draw: nat -> nat): (r: string)
    ensures |r| == if nameLength < 0 then 0 else nameLength
    ensures forall k :: 0 <= k < |r| ==> 'a' <= r[k] <= 'z'
  {
    if nameLength <= 0 then ""
    else seq(nameLength, k requires 0 <= k => Letters[draw(k) % |Letters|])
  }

  // ---------------------------------------------------------------------------
  // ANSI escape-sequence removal
  // ---------------------------------------------------------------------------

  /** A 7-bit C1 Fe final character other than `[`: 0x40-0x5A or 0x5C-0x5F. */
  predicate IsFe(c: char) { '@' <= c <= 'Z' || '\\' <= c <= '_' }

  /** A CSI parameter character, 0x30-0x3F. */
  predicate IsParam(c: char) { '0' <= c <= '?' }

  /** A CSI intermediate character, 0x20-0x2F. */
  predicate IsIntermediate(c: char) { ' ' <= c <= '/' }

  /** A CSI final character, 0x40-0x7E. */
  predicate IsFinal(c: char) { '@' <= c <= '~' }

  /** Every character of `s[lo..hi]` is a CSI parameter character. */
  predicate AllParams(s: string, lo: nat, hi: nat)
    requires lo <= hi <= |s|
  {
    forall j :: lo <= j < hi ==> IsParam(s[j])
  }

  /** Every character of `s[lo..hi]` is a CSI intermediate character. */
  predicate AllIntermediates(s: string, lo: nat, hi: nat)
    requires lo <= hi <= |s|
  {
    forall j :: lo <= j < hi ==> IsIntermediate(s[j])
  }

  /** `w` is ESC `[`, parameters up to `k`, intermediates, and a final character. */
  ghost predicate IsCsiAt(w: string, k: nat) {
    && |w| >= 3 && 2 <= k <= |w| - 1
    && w[0] == ESC && w[1] == '[' && IsFinal(w[|w| - 1])
    && AllParams(w, 2, k) && AllIntermediates(w, k, |w| - 1)
  }

  /**
   * The pattern that the test utilities remove, stated of a whole word: ESC
   * and a Fe character, or a control sequence introduced by ESC `[`.
   */
  ghost predicate IsAnsiSequence(w: string) {
    || (|w| == 2 && w[0] == ESC && IsFe(w[1]))
    || exists k :: IsCsiAt(w, k)
  }

  /** The end of the run of parameter characters starting at `i`. */
  function ParamEnd(s: string, i: nat): (k: nat)
    requires i <= |s|
    ensures i <= k <= |s| && AllParams(s, i, k)
    ensures k == |s| || !IsParam(s[k])
    decreases |s| - i
  {
    if i < |s| && IsParam(s[i]) then ParamEnd(s, i + 1) else i
  }

  /** The end of the run of intermediate characters starting at `i`. */
  function IntermediateEnd(s: string, i: nat): (k: nat)
    requires i <= |s|
    ensures i <= k <= |s| && AllIntermediates(s, i, k)
    ensures k == |s| || !IsIntermediate(s[k])
    decreases |s| - i
  {
    if i < |s| && IsIntermediate(s[i]) then IntermediateEnd(s, i + 1) else i
  }

  /** The parameter run ends exactly at the first non-parameter character. */
  lemma {:induction false} ParamEndAt(s: string, i: nat, m: nat)
    requires i <= m <= |s| && AllParams(s, i, m)
    requires m == |s| || !IsParam(s[m])
    ensures ParamEnd(s, i) == m
    decreases m - i
  {
    if i < m {
      ParamEndAt(s, i + 1, m);
    }
  }

  /** The intermediate run ends exactly at the first other character. */
  lemma {:induction false} IntermediateEndAt(s: string, i: nat, m: nat)
    requires i <= m <= |s| && AllIntermediates(s, i, m)
    requires m == |s| || !IsIntermediate(s[m])
    ensures IntermediateEnd(s, i) == m
    decreases m - i
  {
    if i < m {
      IntermediateEndAt(s, i + 1, m);
    }
  }

  /**
   * Length of the escape sequence at the start of `s`, or 0 when there is
   * none. The character classes do not overlap, so the greedy scan never has
   * to give characters back.
   */
  function MatchLength(s: string): (n: nat)
    ensures n == 0 || 2 <= n <= |s|
  {
    if |s| >= 2 && s[0] == ESC then
      if IsFe(s[1]) then 2
      else if s[1] == '[' then
        var q := IntermediateEnd(s, ParamEnd(s, 2));
        if q < |s| && IsFinal(s[q]) then q + 1 else 0
      else 0
    else 0
  }

  /** What the scanner finds is a word of the pattern. */
  lemma MatchLengthSound(s: string)
    requires MatchLength(s) > 0
    ensures IsAnsiSequence(s[..MatchLength(s)])
  {
    var n := MatchLength(s);
    var w := s[..n];
    if !IsFe(s[1]) {
      var p := ParamEnd(s, 2);
      assert IsCsiAt(w, p);
    }
  }

  /**
   * A word of the pattern at the start of `s` is exactly what the scanner
   * finds: no other length can match at the same position.
   */
  lemma MatchLengthComplete(s: string, n: nat)
    requires n <= |s| && IsAnsiSequence(s[..n])
    ensures MatchLength(s) == n
  {
    var w := s[..n];
    if !(n == 2 && IsFe(w[1])) {
      var k :| IsCsiAt(w, k);
      assert AllParams(s, 2, k);
      assert AllIntermediates(s, k, n - 1);
      ParamEndAt(s, 2, k);
      IntermediateEndAt(s, k, n - 1);
    }
  }

  /**
   * `remove_control_chars`: a left-to-right substitution of every word of
   * the pattern by the empty string.
   */
  function RemoveControlChars(s: string): (r: string)
    ensures |r| <= |s|
    ensures forall c :: c in r ==> c in s
    decreases |s|
  {
    if s == [] then []
    else
      var n := MatchLength(s);
      if n > 0 then RemoveControlChars(s[n..])
      else [s[0]] + RemoveControlChars(s[1..])
  }

  /** Text without ESC passes through unchanged. */
  lemma {:induction false} RemoveControlCharsNoEsc(s: string)
    requires ESC !in s
    ensures RemoveControlChars(s) == s
  {
    if s != [] {
      assert s[0] != ESC;
      RemoveControlCharsNoEsc(s[1..]);
    }
  }

  /** Text without ESC in front is kept, and what follows it is scanned on its own. */
  lemma {:induction false} RemoveControlCharsPrefix(a: string, b: string)
    requires ESC !in a
    ensures RemoveControlChars(a + b) == a + RemoveControlChars(b)
    decreases |a|
  {
    if a == [] {
      assert a + b == b;
    } else {
      var s := a + b;
      assert s[0] == a[0] && a[0] != ESC;
      assert s[1..] == a[1..] + b;
      RemoveControlCharsPrefix(a[1..], b);
      assert a == [a[0]] + a[1..];
    }
  }

  /** ESC followed by a Fe character at the start is deleted. */
  lemma RemoveControlCharsFeAtStart(c: char, rest: string)
    requires IsFe(c)
    ensures RemoveControlChars([ESC, c] + rest) == RemoveControlChars(rest)
  {
    assert ([ESC, c] + rest)[2..] == rest;
  }

  /** ESC followed by a Fe character is deleted, wherever it stands. */
  lemma RemoveControlCharsFe(before: string, c: char, rest: string)
    requires ESC !in before && IsFe(c)
    ensures RemoveControlChars(before + [ESC, c] + rest) == before + RemoveControlChars(rest)
  {
    assert before + [ESC, c] + rest == before + ([ESC, c] + rest);
    RemoveControlCharsPrefix(before, [ESC, c] + rest);
    RemoveControlCharsFeAtStart(c, rest);
  }

  /** A complete control sequence introduced by ESC `[` at the start is deleted. */
  lemma RemoveControlCharsCsiAtStart(params: string, inters: string, final: char, rest: string)
    requires forall j :: 0 <= j < |params| ==> IsParam(params[j])
    requires forall j :: 0 <= j < |inters| ==> IsIntermediate(inters[j])
    requires IsFinal(final)
    ensures RemoveControlChars([ESC, '['] + params + inters + [final] + rest) == RemoveControlChars(rest)
  {
    var w := [ESC, '['] + params + inters + [final];
    var s := w + rest;
    assert s[..|w|] == w;
    assert AllParams(w, 2, 2 + |params|) by {
      forall j | 2 <= j < 2 + |params| ensures IsParam(w[j]) { assert w[j] == params[j - 2]; }
    }
    assert AllIntermediates(w, 2 + |params|, |w| - 1) by {
      forall j | 2 + |params| <= j < |w| - 1 ensures IsIntermediate(w[j]) {
        assert w[j] == inters[j - 2 - |params|];
      }
    }
    assert IsCsiAt(w, 2 + |params|);
    MatchLengthComplete(s, |w|);
    assert s[|w|..] == rest;
  }

  /** A complete control sequence introduced by ESC `[` is deleted, wherever it stands. */
  lemma RemoveControlCharsCsi(before: string, params: string, inters: string, final: char, rest: string)
    requires ESC !in before
    requires forall j :: 0 <= j < |params| ==> IsParam(params[j])
    requires forall j :: 0 <= j < |inters| ==> IsIntermediate(inters[j])
    requires IsFinal(final)
    ensures RemoveControlChars(before + [ESC, '['] + params + inters + [final] + rest) == before + RemoveControlChars(rest)
  {
    var w := [ESC, '['] + params + inters + [final];
    assert before + [ESC, '['] + params + inters + [final] + rest == before + (w + rest);
    RemoveControlCharsPrefix(before, w + rest);
    RemoveControlCharsCsiAtStart(params, inters, final, rest);
  }

  /**
   * A run of parameter and intermediate characters ends the sequence;
   * `rest` does not continue it.
   */
  predicate EndsRun(rest: string) {
    rest == [] || !(IsParam(rest[0]) || IsIntermediate(rest[0]) || IsFinal(rest[0]))
  }

  /** The scanner matches nothing at an ESC `[` that no final character closes. */
  lemma UnterminatedCsiNoMatch(tail: string, rest: string)
    requires forall j :: 0 <= j < |tail| ==> IsParam(tail[j]) || IsIntermediate(tail[j])
    requires EndsRun(rest)
    ensures MatchLength([ESC, '['] + tail + rest) == 0
  {
    var s := [ESC, '['] + tail + rest;
    var m := 2 + |tail|;
    forall j | 2 <= j < m ensures !IsFinal(s[j]) && (IsParam(s[j]) || IsIntermediate(s[j])) {
      assert s[j] == tail[j - 2];
    }
    assert m < |s| ==> s[m] == rest[0];
    var p := ParamEnd(s, 2);
    assert p <= m;
    var q := IntermediateEnd(s, p);
    assert q <= m;
  }

  /** An ESC at which the scanner matches nothing is kept, and scanning resumes after it. */
  lemma RemoveControlCharsKeepsEsc(t: string)
    requires MatchLength([ESC] + t) == 0
    ensures RemoveControlChars([ESC] + t) == [ESC] + RemoveControlChars(t)
  {
    assert ([ESC] + t)[1..] == t;
  }

  /** An ESC `[` at the start that no final character closes is kept, with its run. */
  lemma RemoveControlCharsUnterminatedCsiAtStart(tail: string, rest: string)
    requires forall j :: 0 <= j < |tail| ==> IsParam(tail[j]) || IsIntermediate(tail[j])
    requires EndsRun(rest)
    ensures RemoveControlChars([ESC, '['] + tail + rest) == [ESC, '['] + tail + RemoveControlChars(rest)
  {
    var t := ['['] + tail;
    assert ESC !in t by {
      forall j | 0 <= j < |tail| ensures tail[j] != ESC { assert IsParam(tail[j]) || IsIntermediate(tail[j]); }
    }
    UnterminatedCsiNoMatch(tail, rest);
    ConcatEsc(tail, rest);
    RemoveControlCharsKeepsEsc(t + rest);
    RemoveControlCharsPrefix(t, rest);
  }

  /** How ESC `[` and a run regroup around the character after ESC. */
  lemma ConcatEsc(tail: string, rest: string)
    ensures [ESC, '['] + tail + rest == [ESC] + (['['] + tail + rest)
    ensures [ESC] + (['['] + tail + RemoveControlChars(rest)) == [ESC, '['] + tail + RemoveControlChars(rest)
  {
  }

  /**
   * An ESC `[` that no final character closes is kept, with the parameter
   * and intermediate characters after it, wherever it stands.
   */
  lemma RemoveControlCharsUnterminatedCsi(before: string, tail: string, rest: string)
    requires ESC !in before
    requires forall j :: 0 <= j < |tail| ==> IsParam(tail[j]) || IsIntermediate(tail[j])
    requires EndsRun(rest)
    ensures RemoveControlChars(before + [ESC, '['] + tail + rest) == before + [ESC, '['] + tail + RemoveControlChars(rest)
  {
    var u := [ESC, '['] + tail;
    Regroup(before, [ESC, '['], tail);
    Regroup(before, u, rest);
    RemoveControlCharsPrefix(before, u + rest);
    RemoveControlCharsUnterminatedCsiAtStart(tail, rest);
    Regroup(before, u, RemoveControlChars(rest));
  }

  /** Concatenation regrouped. */
  lemma Regroup(a: string, b: string, c: string)
    ensures a + (b + c) == a + b + c
  {
  }

  /** A colour code inside text is deleted and the text around it kept. */
  lemma RemoveControlCharsColouredText()
    ensures RemoveControlChars("foo" + [ESC, '['] + "31" + "" + ['m'] + "bar") == "foobar"
  {
    RemoveControlCharsCsi("foo", "31", "", 'm', "bar");
    RemoveControlCharsNoEsc("bar");
  }

  /**
   * One pass is not idempotent: deleting a sequence can join an ESC that was
   * kept with the character after the deleted sequence.
   */
  lemma RemoveControlCharsSinglePass()
    ensures RemoveControlChars([ESC, ESC, '@', '@']) == [ESC, '@']
    ensures RemoveControlChars([ESC, '@']) == []
  {
    var s := [ESC, ESC, '@', '@'];
    assert MatchLength(s) == 0;
    assert RemoveControlChars(s) == [ESC] + RemoveControlChars(s[1..]);
    assert s[1..] == [ESC, '@'] + ['@'];
    RemoveControlCharsFeAtStart('@', ['@']);
    assert ['@'] + [] == ['@'];
    RemoveControlCharsFeAtStart('@', []);
  }
}
