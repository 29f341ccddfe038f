/** Python's `str.strip()` with no argument, which the leave handler applies
    to the reason before checking it and before storing it. */
module Text {

  /** Python's `str.isspace` on one character: the characters whose
      bidirectional class is WS, B or S, or whose category is Zs. */
  predicate IsSpace(c: char) {
    || '\U{9}' <= c <= '\U{d}'      // \t \n \v \f \r
    || '\U{1c}' <= c <= '\U{20}'    // file, group, record, unit separators and space
    || c == '\U{85}' || c == '\U{a0}' || c == '\U{1680}'
    || '\U{2000}' <= c <= '\U{200a}'
    || c == '\U{2028}' || c == '\U{2029}' || c == '\U{202f}' || c == '\U{205f}' || c == '\U{3000}'
  }

  predicate AllSpace(s: string) {
    forall i | 0 <= i < |s| :: IsSpace(s[i])
  }

  /** Every character of `s` outside the index range [lo, hi) is whitespace. */
  predicate SpaceOutside(s: string, lo: int, hi: int) {
    forall i | 0 <= i < |s| && (i < lo || hi <= i) :: IsSpace(s[i])
  }

  /** The index of the first character of `s` that is not whitespace, or
      |s| when there is none. */
  function TextStart(s: string, from: nat): (k: nat)
    requires from <= |s|
    ensures from <= k <= |s|
    ensures forall i | from <= i < k :: IsSpace(s[i])
    ensures k == |s| || !IsSpace(s[k])
    decreases |s| - from
  {
    if from < |s| && IsSpace(s[from]) then TextStart(s, from + 1) else from
  }

  /** One past the index of the last character of `s[lo..hi]` that is not
      whitespace, or lo when there is none. */
  function TextEnd(s: string, lo: nat, hi: nat): (e: nat)
    requires lo <= hi <= |s|
    ensures lo <= e <= hi
    ensures forall i | e <= i < hi :: IsSpace(s[i])
    ensures e == lo || !IsSpace(s[e - 1])
    decreases hi
  {
    if lo < hi && IsSpace(s[hi - 1]) then TextEnd(s, lo, hi - 1) else hi
  }

  /** `s.strip()`: the slice of `s` that neither starts nor ends with
      whitespace and is surrounded in `s` by whitespace only. */
  function Strip(s: string): (r: string)
    ensures r == [] || (!IsSpace(r[0]) && !IsSpace(r[|r| - 1]))
    ensures var k := TextStart(s, 0);
            k + |r| <= |s| && r == s[k..k + |r|] && SpaceOutside(s, k, k + |r|)
  {
    var k := TextStart(s, 0);
    s[k..TextEnd(s, k, |s|)]
  }

  /** The reason check of the leave handler: `strip()` leaves nothing exactly
      when every character is whitespace. */
  lemma {:induction false} StripEmptyIffAllSpace(s: string)
    ensures Strip(s) == [] <==> AllSpace(s)
  {
    var k := TextStart(s, 0);
    if Strip(s) != [] {
      assert s[k] == Strip(s)[0];
    }
  }

  /** Stripping a stripped string changes nothing, so the stored reason is
      already in stripped form. */
  lemma {:induction false} StripIdempotent(s: string)
    ensures Strip(Strip(s)) == Strip(s)
  {
    var r := Strip(s);
    if r != [] {
      assert TextStart(r, 0) == 0;
      assert TextEnd(r, 0, |r|) == |r|;
      assert r[0..|r|] == r;
    }
  }
}
