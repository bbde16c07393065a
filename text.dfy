/**
 * The Python string operations the evaluation engine relies on: substring
 * search (`in`, `str.find`), `str.lower`, `str.strip`/`rstrip`,
 * `str.replace` of one character, `str.join` and `str(int)`.
 */
module Text {
  import opened Wrappers

  // ---------------------------------------------------------------------------
  // Substring search
  // ---------------------------------------------------------------------------

  /** `needle` occurs in `text` starting at position `i`. */
  predicate OccursAt(text: string, needle: string, i: nat) {
    i + |needle| <= |text| && text[i..i + |needle|] == needle
  }

  /** Python's `text.find(needle)`, with `None` for -1: the lowest position where `needle` occurs. */
  function Find(text: string, needle: string): (r: Option<nat>)
    ensures r.Some? ==> OccursAt(text, needle, r.value)
    ensures r.Some? ==> forall j :: 0 <= j < r.value ==> !OccursAt(text, needle, j)
    ensures r.None? ==> forall j :: 0 <= j ==> !OccursAt(text, needle, j)
  {
    FindFrom(text, needle, 0)
  }

  function FindFrom(text: string, needle: string, k: nat): (r: Option<nat>)
    requires forall j :: 0 <= j < k ==> !OccursAt(text, needle, j)
    ensures r.Some? ==> k <= r.value && OccursAt(text, needle, r.value)
    ensures r.Some? ==> forall j :: 0 <= j < r.value ==> !OccursAt(text, needle, j)
    ensures r.None? ==> forall j :: 0 <= j ==> !OccursAt(text, needle, j)
    decreases |text| - k
  {
    if k + |needle| > |text| then None
    else if text[k..k + |needle|] == needle then Some(k)
    else FindFrom(text, needle, k + 1)
  }

  /** Python's `needle in text`. */
  predicate Contains(text: string, needle: string) {
    Find(text, needle).Some?
  }

  lemma ContainsAt(text: string, needle: string, i: nat)
    requires OccursAt(text, needle, i)
    ensures Contains(text, needle)
  {
  }

  /** A substring of a substring of `text` is a substring of `text`. */
  lemma ContainsSlice(text: string, a: nat, b: nat, needle: string)
    requires a <= b <= |text| && Contains(text[a..b], needle)
    ensures Contains(text, needle)
  {
    var i := Find(text[a..b], needle).value;
    assert text[a + i..a + i + |needle|] == text[a..b][i..i + |needle|];
    ContainsAt(text, needle, a + i);
  }

  /** A substring of a substring of `text` is a substring of `text`, stated with `in` on both sides. */
  lemma ContainsWithin(text: string, mid: string, needle: string)
    requires Contains(text, mid) && Contains(mid, needle)
    ensures Contains(text, needle)
  {
    var i := Find(text, mid).value;
    ContainsSlice(text, i, i + |mid|, needle);
  }

  /** Python's `any(p in text for p in phrases)`. */
  predicate HasAny(text: string, phrases: seq<string>) {
    exists p :: p in phrases && Contains(text, p)
  }

  /** Python's `for p in phrases: if p in text: return p` followed by `return None`. */
  function FirstMatch(text: string, phrases: seq<string>): (r: Option<string>)
    ensures r.Some? <==> HasAny(text, phrases)
    ensures r.Some? ==> r.value in phrases && Contains(text, r.value)
    ensures r.Some? ==> exists k :: 0 <= k < |phrases| && phrases[k] == r.value &&
                                    forall j :: 0 <= j < k ==> !Contains(text, phrases[j])
  {
    if phrases == [] then None
    else if Contains(text, phrases[0]) then Some(phrases[0])
    else
      var r := FirstMatch(text, phrases[1..]);
      assert forall p :: p in phrases[1..] ==> p in phrases;
      assert forall p :: p in phrases ==> p == phrases[0] || p in phrases[1..];
      if r.Some? then
        var k :| 0 <= k < |phrases[1..]| && phrases[1..][k] == r.value &&
                 forall j :: 0 <= j < k ==> !Contains(text, phrases[1..][j]);
        assert phrases[k + 1] == r.value;
        assert forall j :: 0 <= j < k + 1 ==> !Contains(text, phrases[j]) by {
          forall j | 0 <= j < k + 1 ensures !Contains(text, phrases[j]) {
            if j > 0 { assert phrases[j] == phrases[1..][j - 1]; }
          }
        }
        r
      else r
  }

  // ---------------------------------------------------------------------------
  // Case mapping
  // ---------------------------------------------------------------------------

  /** `str.lower` on ASCII letters; every other character is left as it is. */
  function LowerChar(c: char): (d: char)
    ensures 'A' <= c <= 'Z' ==> 'a' <= d <= 'z' && d as int == c as int + 32
    ensures !('A' <= c <= 'Z') ==> d == c
  {
    if 'A' <= c <= 'Z' then (c as int + 32) as char else c
  }

  function Lower(s: string): (r: string)
    ensures |r| == |s|
    ensures forall i :: 0 <= i < |s| ==> r[i] == LowerChar(s[i])
  {
    seq(|s|, i requires 0 <= i < |s| => LowerChar(s[i]))
  }

  /** `Lower` commutes with slicing. */
  lemma LowerSlice(s: string, a: nat, b: nat)
    requires a <= b <= |s|
    ensures Lower(s)[a..b] == Lower(s[a..b])
  {
  }

  /** Lower-casing both sides keeps an occurrence. */
  lemma ContainsLower(text: string, needle: string)
    requires Contains(text, needle)
    ensures Contains(Lower(text), Lower(needle))
  {
    var i := Find(text, needle).value;
    LowerSlice(text, i, i + |needle|);
    ContainsAt(Lower(text), Lower(needle), i);
  }

  /** Lower-casing never turns a character into whitespace or back. */
  lemma LowerKeepsSpace(c: char)
    ensures IsSpace(LowerChar(c)) <==> IsSpace(c)
  {
  }

  /** Two strings equal up to case start and end with whitespace alike. */
  lemma LowerEdges(m: string, t: string)
    requires Lower(m) == Lower(t) && |t| > 0
    ensures IsSpace(m[0]) <==> IsSpace(t[0])
    ensures IsSpace(m[|m| - 1]) <==> IsSpace(t[|t| - 1])
  {
    assert LowerChar(m[0]) == Lower(t)[0];
    assert LowerChar(m[|m| - 1]) == Lower(t)[|t| - 1];
    LowerKeepsSpace(m[0]);
    LowerKeepsSpace(t[0]);
    LowerKeepsSpace(m[|m| - 1]);
    LowerKeepsSpace(t[|t| - 1]);
  }

  /** Upper-case ASCII, Python's `str.upper` restricted to ASCII letters. */
  function UpperChar(c: char): (d: char)
    ensures 'a' <= c <= 'z' ==> 'A' <= d <= 'Z' && d as int == c as int - 32
    ensures !('a' <= c <= 'z') ==> d == c
  {
    if 'a' <= c <= 'z' then (c as int - 32) as char else c
  }

  function Upper(s: string): (r: string)
    ensures |r| == |s|
    ensures forall i :: 0 <= i < |s| ==> r[i] == UpperChar(s[i])
  {
    seq(|s|, i requires 0 <= i < |s| => UpperChar(s[i]))
  }

  // ---------------------------------------------------------------------------
  // Whitespace trimming
  // ---------------------------------------------------------------------------

  /** The characters for which Python's `str.isspace` holds; `strip()` removes exactly these. */
  predicate IsSpace(c: char) {
    ('\t' <= c <= '\r') || ('\U{1c}' <= c <= ' ') || c == '\U{85}' || c == '\U{a0}' ||
    c == '\U{1680}' || ('\U{2000}' <= c <= '\U{200a}') || c == '\U{2028}' || c == '\U{2029}' ||
    c == '\U{202f}' || c == '\U{205f}' || c == '\U{3000}'
  }

  predicate AllSpace(s: string) {
    forall i :: 0 <= i < |s| ==> IsSpace(s[i])
  }

  /** Python's `s.lstrip()`: the suffix of `s` left once the leading whitespace is gone. */
  function LStrip(s: string): (r: string)
    ensures |r| <= |s| && r == s[|s| - |r|..]
    ensures AllSpace(s[..|s| - |r|])
    ensures r == [] || !IsSpace(r[0])
  {
    if s != [] && IsSpace(s[0]) then
      var r := LStrip(s[1..]);
      LStripStep(s, r);
      r
    else s
  }

  /** Python's `s.rstrip()`: the prefix of `s` left once the trailing whitespace is gone. */
  function RStrip(s: string): (r: string)
    ensures |r| <= |s| && r == s[..|r|]
    ensures AllSpace(s[|r|..])
    ensures r == [] || !IsSpace(r[|r| - 1])
  {
    if s != [] && IsSpace(s[|s| - 1]) then
      var r := RStrip(s[..|s| - 1]);
      RStripStep(s, r);
      r
    else s
  }

  /** `r` is `s` with its leading and trailing whitespace removed, and nothing else. */
  predicate IsStripOf(r: string, s: string) {
    exists a :: 0 <= a && a + |r| <= |s| && StrippedAt(r, s, a)
  }

  predicate StrippedAt(r: string, s: string, a: nat)
    requires a + |r| <= |s|
  {
    r == s[a..a + |r|] && AllSpace(s[..a]) && AllSpace(s[a + |r|..]) &&
    (r == [] || (!IsSpace(r[0]) && !IsSpace(r[|r| - 1])))
  }

  /** Python's `s.strip()`. */
  function Strip(s: string): (r: string)
    ensures IsStripOf(r, s)
  {
    var l := LStrip(s);
    var r := RStrip(l);
    StripStep(s, l, r);
    r
  }

  /** One step of `LStrip`: a leading space joins the stripped prefix. */
  lemma LStripStep(s: string, r: string)
    requires s != [] && IsSpace(s[0]) && |r| <= |s| - 1
    requires r == s[1..][|s| - 1 - |r|..] && AllSpace(s[1..][..|s| - 1 - |r|])
    ensures r == s[|s| - |r|..] && AllSpace(s[..|s| - |r|])
  {
    var t, n := s[1..], |s| - |r|;
    assert t[n - 1..] == s[n..];
    forall i | 0 <= i < n ensures IsSpace(s[..n][i]) {
      if i > 0 {
        assert s[..n][i] == t[..n - 1][i - 1];
      }
    }
  }

  /** One step of `RStrip`: a trailing space joins the stripped suffix. */
  lemma RStripStep(s: string, r: string)
    requires s != [] && IsSpace(s[|s| - 1]) && |r| <= |s| - 1
    requires r == s[..|s| - 1][..|r|] && AllSpace(s[..|s| - 1][|r|..])
    ensures r == s[..|r|] && AllSpace(s[|r|..])
  {
    var t, m := s[..|s| - 1], |s| - 1;
    assert t[..|r|] == s[..|r|];
    forall j | 0 <= j < |s| - |r| ensures IsSpace(s[|r|..][j]) {
      if |r| + j < m {
        assert s[|r|..][j] == t[|r|..][j];
      }
    }
  }

  /** `RStrip(LStrip(s))` is `s` stripped at the start of the `LStrip` suffix. */
  lemma StripStep(s: string, l: string, r: string)
    requires |l| <= |s| && l == s[|s| - |l|..] && AllSpace(s[..|s| - |l|]) && (l == [] || !IsSpace(l[0]))
    requires |r| <= |l| && r == l[..|r|] && AllSpace(l[|r|..]) && (r == [] || !IsSpace(r[|r| - 1]))
    ensures StrippedAt(r, s, |s| - |l|)
  {
    var a := |s| - |l|;
    assert s[a..a + |r|] == l[..|r|];
    assert s[a + |r|..] == l[|r|..];
    assert r != [] ==> r[0] == l[0];
  }

  /** The stripped form of a string is unique: `IsStripOf` pins the result down completely. */
  lemma {:induction false} StripUnique(r1: string, r2: string, s: string)
    requires IsStripOf(r1, s) && IsStripOf(r2, s)
    ensures r1 == r2
  {
    var a1 :| 0 <= a1 && a1 + |r1| <= |s| && StrippedAt(r1, s, a1);
    var a2 :| 0 <= a2 && a2 + |r2| <= |s| && StrippedAt(r2, s, a2);
    StrippedBounds(r1, s, a1);
    StrippedBounds(r2, s, a2);
    assert r1 == [] <==> r2 == [];
    assert r1 != [] ==> a1 == a2 && |r1| == |r2|;
  }

  /** Around a stripped part `s[a..a + |r|]` lies only whitespace, and its ends are not whitespace. */
  lemma StrippedBounds(r: string, s: string, a: nat)
    requires a + |r| <= |s| && StrippedAt(r, s, a)
    ensures forall k :: 0 <= k < a ==> IsSpace(s[k])
    ensures forall k :: a + |r| <= k < |s| ==> IsSpace(s[k])
    ensures r != [] ==> !IsSpace(s[a]) && !IsSpace(s[a + |r| - 1])
  {
    var e := a + |r|;
    forall k | 0 <= k < a ensures IsSpace(s[k]) { assert s[..a][k] == s[k]; }
    forall k | e <= k < |s| ensures IsSpace(s[k]) { assert s[e..][k - e] == s[k]; }
    assert r != [] ==> s[a] == r[0] && s[e - 1] == r[|r| - 1];
  }

  /** Stripping never cuts into a stretch that starts and ends with a non-whitespace character. */
  lemma StripKeeps(r: string, w: string, j: nat, n: nat)
    requires IsStripOf(r, w)
    requires 0 < n && j + n <= |w| && !IsSpace(w[j]) && !IsSpace(w[j + n - 1])
    ensures Contains(r, w[j..j + n])
  {
    var s :| 0 <= s && s + |r| <= |w| && StrippedAt(r, w, s);
    StrippedBounds(r, w, s);
    assert s <= j && j + n <= s + |r|;
    var d := j - s;
    SliceOfSlice(w, s, s + |r|, d, n);
    ContainsAt(r, w[j..j + n], d);
  }

  /** The same, for a strip of the slice `s[a..b]` and characters `s[i..i + n]` inside it. */
  lemma StripKeepsWithin(r: string, s: string, a: nat, b: nat, i: nat, n: nat)
    requires a <= i && 0 < n && i + n <= b <= |s|
    requires IsStripOf(r, s[a..b]) && !IsSpace(s[i]) && !IsSpace(s[i + n - 1])
    ensures Contains(r, s[i..i + n])
  {
    SliceOfSlice(s, a, b, i - a, n);
    StripKeeps(r, s[a..b], i - a, n);
  }

  /** A slice of a slice is a slice of the whole. */
  lemma SliceOfSlice(w: string, lo: nat, hi: nat, d: nat, n: nat)
    requires lo + d + n <= hi <= |w|
    ensures w[lo..hi][d..d + n] == w[lo + d..lo + d + n]
  {
    var u, v := w[lo..hi][d..d + n], w[lo + d..lo + d + n];
    forall k | 0 <= k < n ensures u[k] == v[k] {
      assert u[k] == w[lo..hi][d + k];
    }
  }

  /** Stripping is idempotent: a stripped string has nothing left to strip. */
  lemma StripIdempotent(s: string)
    ensures Strip(Strip(s)) == Strip(s)
  {
    var r := Strip(s);
    assert StrippedAt(r, r, 0) by {
      assert r[0..|r|] == r;
      assert r[..0] == [] && r[|r|..] == [];
    }
    StripUnique(Strip(r), r, r);
  }

  // ---------------------------------------------------------------------------
  // Replacement and joining
  // ---------------------------------------------------------------------------

  /** Python's `s.replace(c, rep)` for a one-character pattern. */
  function ReplaceChar(s: string, c: char, rep: string): (r: string)
    ensures c !in rep ==> c !in r
    ensures forall d :: d in r ==> d in s || d in rep
    ensures |rep| == 1 ==> |r| == |s|
    ensures c !in s ==> r == s
  {
    if s == [] then []
    else (if s[0] == c then rep else [s[0]]) + ReplaceChar(s[1..], c, rep)
  }

  /** Replacing a character by one character works position by position. */
  lemma {:induction false} ReplaceCharAt(s: string, c: char, d: char)
    ensures |ReplaceChar(s, c, [d])| == |s|
    ensures forall i :: 0 <= i < |s| ==> ReplaceChar(s, c, [d])[i] == (if s[i] == c then d else s[i])
  {
    if s != [] {
      ReplaceCharAt(s[1..], c, d);
      var r := ReplaceChar(s, c, [d]);
      assert r == (if s[0] == c then [d] else [s[0]]) + ReplaceChar(s[1..], c, [d]);
      forall i | 0 < i < |s| ensures r[i] == (if s[i] == c then d else s[i]) {
        assert s[1..][i - 1] == s[i];
      }
    }
  }

  /** A string with no whitespace at either end is its own strip. */
  lemma StripFixed(s: string)
    requires s == [] || (!IsSpace(s[0]) && !IsSpace(s[|s| - 1]))
    ensures Strip(s) == s
  {
    assert StrippedAt(s, s, 0) by {
      assert s[0..|s|] == s;
      assert s[..0] == [] && s[|s|..] == [];
    }
    StripUnique(Strip(s), s, s);
  }

  /** The ends of a stripped string are not whitespace. */
  lemma StripEnds(s: string)
    ensures Strip(s) == [] || (!IsSpace(Strip(s)[0]) && !IsSpace(Strip(s)[|Strip(s)| - 1]))
  {
    var r := Strip(s);
    var a :| 0 <= a && a + |r| <= |s| && StrippedAt(r, s, a);
  }

  /** Python's `sep.join(parts)`. */
  function Join(parts: seq<string>, sep: string): (r: string)
    ensures parts == [] ==> r == []
    ensures |parts| == 1 ==> r == parts[0]
  {
    if parts == [] then []
    else if |parts| == 1 then parts[0]
    else parts[0] + sep + Join(parts[1..], sep)
  }

  /** The combined length of the parts. */
  function TotalLength(parts: seq<string>): nat {
    if parts == [] then 0 else |parts[0]| + TotalLength(parts[1..])
  }

  lemma {:induction false} TotalLengthAppend(a: seq<string>, b: seq<string>)
    ensures TotalLength(a + b) == TotalLength(a) + TotalLength(b)
  {
    if a != [] {
      assert (a + b)[1..] == a[1..] + b;
      TotalLengthAppend(a[1..], b);
    } else {
      assert a + b == b;
    }
  }

  /** A join is as long as its parts plus one separator between each two. */
  lemma {:induction false} JoinLength(parts: seq<string>, sep: string)
    requires parts != []
    ensures |Join(parts, sep)| == TotalLength(parts) + (|parts| - 1) * |sep|
  {
    if |parts| > 1 {
      JoinLength(parts[1..], sep);
    }
  }

  /** Every part occurs in the join. */
  lemma {:induction false} JoinContains(parts: seq<string>, sep: string, k: nat)
    requires k < |parts|
    ensures Contains(Join(parts, sep), parts[k])
  {
    if |parts| == 1 {
      ContainsAt(parts[0], parts[0], 0);
    } else if k == 0 {
      var r := Join(parts, sep);
      assert r[..|parts[0]|] == parts[0];
      ContainsAt(r, parts[0], 0);
    } else {
      JoinContains(parts[1..], sep, k - 1);
      var r := Join(parts, sep);
      var a := |parts[0] + sep|;
      assert r[a..|r|] == Join(parts[1..], sep);
      ContainsSlice(r, a, |r|, parts[k]);
    }
  }

  // ---------------------------------------------------------------------------
  // Decimal rendering of integers, Python's `str(n)`
  // ---------------------------------------------------------------------------

  predicate IsDigit(c: char) { '0' <= c <= '9' }

  function DigitChar(d: nat): (c: char)
    requires d < 10
    ensures IsDigit(c)
  {
    ['0', '1', '2', '3', '4', '5', '6', '7', '8', '9'][d]
  }

  function DigitValue(c: char): nat
    requires IsDigit(c)
  {
    c as int - '0' as int
  }

  function NatToString(n: nat): (r: string)
    ensures r != [] && forall i :: 0 <= i < |r| ==> IsDigit(r[i])
  {
    if n < 10 then [DigitChar(n)] else NatToString(n / 10) + [DigitChar(n % 10)]
  }

  /** Reads a string of decimal digits back as a number. */
  function ParseDigits(s: string): nat
    requires forall i :: 0 <= i < |s| ==> IsDigit(s[i])
  {
    if s == [] then 0 else 10 * ParseDigits(s[..|s| - 1]) + DigitValue(s[|s| - 1])
  }

  lemma {:induction false} NatToStringRoundTrip(n: nat)
    ensures ParseDigits(NatToString(n)) == n
  {
    var r := NatToString(n);
    if n >= 10 {
      NatToStringRoundTrip(n / 10);
      assert r[..|r| - 1] == NatToString(n / 10);
    }
  }

  /** `str(n)` for any int: a minus sign before the digits of a negative number. */
  function IntToString(n: int): (r: string)
    ensures r != []
    ensures '|' !in r && '\n' !in r
  {
    var d := if n < 0 then "-" + NatToString(-n) else NatToString(n);
    assert forall c :: c in NatToString(if n < 0 then -n else n) ==> IsDigit(c);
    d
  }
}
