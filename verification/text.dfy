/**
 * Character and string helpers with the meaning the Rust standard library gives them:
 * `trim`, `to_lowercase` (restricted, see README), `contains`, `ends_with`, `starts_with`,
 * `split(':').last()` and the UTF-8 byte length returned by `String::len`.
 */
module Text {
  import opened Common

  /** Rust's `char::is_whitespace`: the Unicode White_Space property. */
  predicate IsWhitespace(c: char) {
    || ('\t' <= c <= '\r')
    || c == ' ' || c == '\U{85}' || c == '\U{A0}' || c == '\U{1680}'
    || ('\U{2000}' <= c <= '\U{200A}')
    || c == '\U{2028}' || c == '\U{2029}' || c == '\U{202F}' || c == '\U{205F}' || c == '\U{3000}'
  }

  predicate AllWhitespace(s: string) {
    forall i :: 0 <= i < |s| ==> IsWhitespace(s[i])
  }

  /** Number of leading whitespace characters. */
  function LeadingSpace(s: string): (k: nat)
    ensures k <= |s|
    ensures forall i :: 0 <= i < k ==> IsWhitespace(s[i])
    ensures k == |s| || !IsWhitespace(s[k])
  {
    if |s| == 0 || !IsWhitespace(s[0]) then 0 else 1 + LeadingSpace(s[1..])
  }

  /** Number of trailing whitespace characters. */
  function TrailingSpace(s: string): (k: nat)
    ensures k <= |s|
    ensures forall i :: |s| - k <= i < |s| ==> IsWhitespace(s[i])
    ensures k == |s| || !IsWhitespace(s[|s| - k - 1])
  {
    if |s| == 0 || !IsWhitespace(s[|s| - 1]) then 0 else 1 + TrailingSpace(s[..|s| - 1])
  }

  /** Rust's `str::trim`. */
  function Trim(s: string): (r: string)
  {
    var t := s[LeadingSpace(s)..];
    t[..|t| - TrailingSpace(t)]
  }

  /** `s.trim().is_empty()`. */
  predicate IsBlank(s: string) {
    Trim(s) == []
  }

  /** `if s.trim().is_empty() { None } else { Some(s.trim().to_string()) }`. */
  function TrimmedOrNone(s: string): (r: Option<string>)
    ensures r.None? <==> IsBlank(s)
    ensures r.Some? ==> r.value == Trim(s) && r.value != []
  {
    if IsBlank(s) then None else Some(Trim(s))
  }

  /** The trimmed text is a slice of the input that neither starts nor ends with whitespace,
      and everything cut away on either side is whitespace. */
  lemma TrimShape(s: string)
    ensures var r := Trim(s);
      && (r == [] || (!IsWhitespace(r[0]) && !IsWhitespace(r[|r| - 1])))
      && exists i, j :: 0 <= i <= j <= |s| && r == s[i..j] && AllWhitespace(s[..i]) && AllWhitespace(s[j..])
  {
    var i := LeadingSpace(s);
    var t := s[i..];
    var j := i + |t| - TrailingSpace(t);
    assert Trim(s) == s[i..j];
    assert AllWhitespace(s[..i]);
    assert AllWhitespace(s[j..]) by {
      forall k | 0 <= k < |s[j..]| ensures IsWhitespace(s[j..][k]) {
        assert s[j..][k] == t[|t| - TrailingSpace(t) + k];
      }
    }
  }

  /** A string is blank exactly when every character is whitespace. */
  lemma BlankIffAllWhitespace(s: string)
    ensures IsBlank(s) <==> AllWhitespace(s)
  {
    var i := LeadingSpace(s);
    var t := s[i..];
    if AllWhitespace(s) {
      assert i == |s|;
    }
    if IsBlank(s) {
      assert TrailingSpace(t) == |t|;
      assert i == |s|;
    }
  }

  /** Trimming is idempotent. */
  lemma TrimIdempotent(s: string)
    ensures Trim(Trim(s)) == Trim(s)
  {
    var r := Trim(s);
    TrimShape(s);
    if r != [] {
      assert LeadingSpace(r) == 0;
      assert TrailingSpace(r) == 0;
    }
  }

  /** Normalising an optional text twice changes nothing: what the form shows after a save
      normalises to what was saved. */
  lemma TrimmedOrNoneIdempotent(s: string)
    ensures TrimmedOrNone(TrimmedOrNone(s).GetOr("")) == TrimmedOrNone(s)
  {
    TrimIdempotent(s);
  }

  /** The lower-case form of one character. Rust lower-cases all of Unicode; this model covers
      ASCII letters and the Latin-1 capitals U+00C0..U+00DE (U+00D7, the multiplication
      sign, is not a letter), which is every capital the accent table of the group search uses. */
  function LowerChar(c: char): (r: char)
  {
    if 'A' <= c <= 'Z' || ('\U{C0}' <= c <= '\U{DE}' && c != '\U{D7}') then
      (c as int + 32) as char
    else c
  }

  /** A character with no upper-case form in the model. */
  predicate IsLowerOrCaseless(c: char) {
    !('A' <= c <= 'Z') && !('\U{C0}' <= c <= '\U{DE}' && c != '\U{D7}')
  }

  /** Rust's `str::to_lowercase` restricted to the characters `LowerChar` knows. */
  function ToLower(s: string): (r: string)
  {
    seq(|s|, i requires 0 <= i < |s| => LowerChar(s[i]))
  }

  /** Lower-casing keeps the length, produces no capitals and leaves caseless characters alone;
      so it is idempotent. */
  lemma ToLowerFacts(s: string)
    ensures |ToLower(s)| == |s|
    ensures forall i :: 0 <= i < |s| ==> IsLowerOrCaseless(ToLower(s)[i])
    ensures forall i :: 0 <= i < |s| && IsLowerOrCaseless(s[i]) ==> ToLower(s)[i] == s[i]
    ensures ToLower(ToLower(s)) == ToLower(s)
  {
  }

  lemma ToLowerAppend(a: string, b: string)
    ensures ToLower(a + b) == ToLower(a) + ToLower(b)
  {
  }

  /** `q` occurs in `s` starting at index `i`. */
  predicate OccursAt(s: string, q: string, i: int) {
    0 <= i && i + |q| <= |s| && s[i..i + |q|] == q
  }

  /** Rust's `str::contains` for a string pattern. */
  predicate Contains(s: string, q: string) {
    exists i | 0 <= i <= |s| :: OccursAt(s, q, i)
  }

  /** Every string contains the empty string; a string never contains a longer one. */
  lemma ContainsBasics(s: string, q: string)
    ensures Contains(s, [])
    ensures |q| > |s| ==> !Contains(s, q)
    ensures Contains(s, s)
  {
    assert OccursAt(s, [], 0);
    assert OccursAt(s, s, 0);
  }

  /** A string that contains `a + b` contains `a`: lengthening a search query can only narrow
      what it matches. */
  lemma ContainsPrefix(s: string, a: string, b: string)
    requires Contains(s, a + b)
    ensures Contains(s, a)
  {
    var i :| 0 <= i <= |s| && OccursAt(s, a + b, i);
    assert s[i..i + |a|] == (a + b)[..|a|];
    assert OccursAt(s, a, i);
  }

  /** Rust's `str::starts_with`. */
  predicate StartsWith(s: string, p: string) {
    |p| <= |s| && s[..|p|] == p
  }

  /** Rust's `str::ends_with`. */
  predicate EndsWith(s: string, suffix: string) {
    |suffix| <= |s| && s[|s| - |suffix|..] == suffix
  }

  /** Rust's `String` order: lexicographic by code point (the UTF-8 byte order), a prefix first. */
  predicate StrLe(a: string, b: string) {
    if |a| == 0 then true
    else if |b| == 0 then false
    else if a[0] == b[0] then StrLe(a[1..], b[1..])
    else a[0] < b[0]
  }

  /** String order is total and antisymmetric. */
  lemma {:induction false} StrLeTotal(a: string, b: string)
    ensures StrLe(a, b) || StrLe(b, a)
    ensures StrLe(a, b) && StrLe(b, a) ==> a == b
  {
    if |a| > 0 && |b| > 0 && a[0] == b[0] {
      StrLeTotal(a[1..], b[1..]);
      assert a == [a[0]] + a[1..] && b == [b[0]] + b[1..];
    }
  }

  /** String order is transitive. */
  lemma {:induction false} StrLeTrans(a: string, b: string, c: string)
    requires StrLe(a, b) && StrLe(b, c)
    ensures StrLe(a, c)
  {
    if |a| > 0 && |b| > 0 && |c| > 0 && a[0] == b[0] && b[0] == c[0] {
      StrLeTrans(a[1..], b[1..], c[1..]);
    }
  }

  /** `s.split(':').last()`: the text after the last ':' (all of `s` when there is none). */
  function TrailingSegment(s: string): (r: string)
    ensures ':' !in r
    ensures |r| <= |s|
  {
    if |s| == 0 then []
    else if s[|s| - 1] == ':' then []
    else TrailingSegment(s[..|s| - 1]) + [s[|s| - 1]]
  }

  /** The trailing segment ends `s`, and unless it is all of `s` a ':' comes right before it. */
  lemma {:induction false} TrailingSegmentIsSuffix(s: string)
    ensures var r := TrailingSegment(s);
      EndsWith(s, r) && (|r| < |s| ==> s[|s| - |r| - 1] == ':')
    decreases |s|
  {
    if |s| > 0 && s[|s| - 1] != ':' {
      var r := TrailingSegment(s[..|s| - 1]);
      TrailingSegmentIsSuffix(s[..|s| - 1]);
      assert s[..|s| - 1][|s| - 1 - |r|..] == r;
    }
  }

  /** A string without ':' is its own trailing segment; any prefix ending in ':' is dropped. */
  lemma {:induction false} TrailingSegmentAfterColon(p: string, x: string)
    requires ':' !in x
    ensures TrailingSegment(p + [':'] + x) == x
    ensures TrailingSegment(x) == x
    decreases |x|
  {
    if |x| == 0 {
      assert (p + [':'] + x) == p + [':'];
    } else {
      var x' := x[..|x| - 1];
      TrailingSegmentAfterColon(p, x');
      assert (p + [':'] + x)[..|p + [':'] + x| - 1] == p + [':'] + x';
      assert x[..|x| - 1] == x';
    }
  }

  /** Bytes taken by one character in UTF-8. */
  function Utf8Width(c: char): (w: nat)
    ensures 1 <= w <= 4
  {
    if c as int < 0x80 then 1 else if c as int < 0x800 then 2 else if c as int < 0x10000 then 3 else 4
  }

  /** Rust's `String::len`: the UTF-8 byte length. */
  function Utf8Len(s: string): (n: nat)
    ensures |s| <= n <= 4 * |s|
  {
    if |s| == 0 then 0 else Utf8Len(s[..|s| - 1]) + Utf8Width(s[|s| - 1])
  }

  /** For ASCII text the byte length is the character count. */
  lemma {:induction false} Utf8LenAscii(s: string)
    requires forall i :: 0 <= i < |s| ==> s[i] as int < 0x80
    ensures Utf8Len(s) == |s|
  {
    if |s| > 0 {
      Utf8LenAscii(s[..|s| - 1]);
    }
  }
}
