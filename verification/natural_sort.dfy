/**
 * The two string transforms of the field-service group view: `normalize_string` (accent and
 * case folding for search) and `natural_sort_key` (group names ordered so that "Group 2"
 * precedes "Group 10"), with the order Rust's `Vec<(bool, String)>` comparison gives the keys.
 */
module NaturalSort {
  import opened Text
  import opened Numbers

  // ---------------------------------------------------------------- normalize_string

  /** The accent table of `normalize_string`: an accented Latin letter becomes its plain
      letter of the same case; every other character is kept. */
  function FoldAccent(c: char): char {
    match c
    case 'à' | 'á' | 'â' | 'ã' | 'ä' | 'å' => 'a'
    case 'è' | 'é' | 'ê' | 'ë' => 'e'
    case 'ì' | 'í' | 'î' | 'ï' => 'i'
    case 'ò' | 'ó' | 'ô' | 'õ' | 'ö' => 'o'
    case 'ù' | 'ú' | 'û' | 'ü' => 'u'
    case 'ñ' => 'n'
    case 'ç' => 'c'
    case 'À' | 'Á' | 'Â' | 'Ã' | 'Ä' | 'Å' => 'A'
    case 'È' | 'É' | 'Ê' | 'Ë' => 'E'
    case 'Ì' | 'Í' | 'Î' | 'Ï' => 'I'
    case 'Ò' | 'Ó' | 'Ô' | 'Õ' | 'Ö' => 'O'
    case 'Ù' | 'Ú' | 'Û' | 'Ü' => 'U'
    case 'Ñ' => 'N'
    case 'Ç' => 'C'
    case _ => c
  }

  /** `normalize_string`: fold accents, then lower-case the whole string. */
  function Normalize(s: string): (r: string)
    ensures |r| == |s|
  {
    ToLower(seq(|s|, i requires 0 <= i < |s| => FoldAccent(s[i])))
  }

  /** A character `normalize_string` leaves as it is. */
  predicate IsFolded(c: char) {
    IsLowerOrCaseless(c) && FoldAccent(c) == c
  }

  /** The letters the accent table produces. */
  const PLAIN_LETTERS := "aeiouncAEIOUNC"

  /** The accent table only touches Latin-1, and only to give a plain letter. */
  lemma FoldAccentShape(c: char)
    ensures c < '\U{C0}' || c > '\U{FF}' ==> FoldAccent(c) == c
    ensures FoldAccent(c) == c || FoldAccent(c) in PLAIN_LETTERS
  {
  }

  /** The Latin-1 capitals the accent table keeps are Æ, Ð, Ø, Ý and Þ. */
  lemma KeptCapitals(c: char)
    requires '\U{C0}' <= c <= '\U{DE}' && c != '\U{D7}' && FoldAccent(c) == c
    ensures c in "\U{C6}\U{D0}\U{D8}\U{DD}\U{DE}"
  {
  }

  /** Folding then lower-casing one character: an accented letter of the table becomes one of
      the plain lower-case letters a, e, i, o, u, n, c; the result is always folded. */
  lemma FoldLowerChar(c: char)
    ensures FoldAccent(c) != c ==> LowerChar(FoldAccent(c)) in "aeiounc"
    ensures IsFolded(LowerChar(FoldAccent(c)))
  {
    FoldAccentShape(c);
    var f := FoldAccent(c);
    if f != c {
      assert f in PLAIN_LETTERS;
    } else if '\U{C0}' <= c <= '\U{DE}' && c != '\U{D7}' {
      KeptCapitals(c);
    } else if 'A' <= c <= 'Z' {
      assert LowerChar(c) < '\U{C0}';
      FoldAccentShape(LowerChar(c));
    } else {
      assert LowerChar(c) == c;
    }
  }

  /** What `normalize_string` does to each character: an accented letter of the table becomes
      one of the plain lower-case letters a, e, i, o, u, n, c; any other character is only
      lower-cased; nothing in the result is a capital or an accented letter of the table. */
  lemma NormalizeChars(s: string)
    ensures forall i :: 0 <= i < |s| && FoldAccent(s[i]) != s[i] ==>
      Normalize(s)[i] in "aeiounc" && Normalize(s)[i] == LowerChar(FoldAccent(s[i]))
    ensures forall i :: 0 <= i < |s| && FoldAccent(s[i]) == s[i] ==> Normalize(s)[i] == LowerChar(s[i])
    ensures forall i :: 0 <= i < |s| ==> IsFolded(Normalize(s)[i])
  {
    forall i | 0 <= i < |s|
      ensures FoldAccent(s[i]) != s[i] ==> Normalize(s)[i] in "aeiounc"
      ensures IsFolded(Normalize(s)[i])
    {
      FoldLowerChar(s[i]);
    }
  }

  /** Normalizing twice is normalizing once. */
  lemma NormalizeIdempotent(s: string)
    ensures Normalize(Normalize(s)) == Normalize(s)
  {
    NormalizeChars(s);
  }

  /** The search is case-insensitive: lower-casing first changes nothing. */
  lemma NormalizeIgnoresCase(s: string)
    ensures Normalize(ToLower(s)) == Normalize(s)
  {
    forall i | 0 <= i < |s| ensures Normalize(ToLower(s))[i] == Normalize(s)[i] {
      LowerThenFold(s[i]);
    }
  }

  /** Lower-casing a character before folding and lower-casing it changes nothing. */
  lemma LowerThenFold(c: char)
    ensures LowerChar(FoldAccent(LowerChar(c))) == LowerChar(FoldAccent(c))
  {
    FoldAccentShape(c);
    if 'A' <= c <= 'Z' {
      assert LowerChar(c) < '\U{C0}';
      FoldAccentShape(LowerChar(c));
    } else if '\U{C0}' <= c <= '\U{DE}' && c != '\U{D7}' {
      FoldAccentCases(c);
    }
  }

  /** The accent table treats a Latin-1 capital and its small letter alike. */
  lemma FoldAccentCases(c: char)
    requires '\U{C0}' <= c <= '\U{DE}' && c != '\U{D7}'
    ensures LowerChar(FoldAccent((c as int + 32) as char)) == LowerChar(FoldAccent(c))
  {
    if c < '\U{D0}' {
      FoldAccentCasesLow(c);
    } else {
      FoldAccentCasesHigh(c);
    }
  }

  lemma FoldAccentCasesLow(c: char)
    requires '\U{C0}' <= c < '\U{D0}'
    ensures LowerChar(FoldAccent((c as int + 32) as char)) == LowerChar(FoldAccent(c))
  {
  }

  lemma FoldAccentCasesHigh(c: char)
    requires '\U{D0}' <= c <= '\U{DE}' && c != '\U{D7}'
    ensures LowerChar(FoldAccent((c as int + 32) as char)) == LowerChar(FoldAccent(c))
  {
  }

  /** Normalizing is character by character, so it distributes over concatenation. */
  lemma NormalizeAppend(a: string, b: string)
    ensures Normalize(a + b) == Normalize(a) + Normalize(b)
  {
  }

  lemma NormalizeExamples()
    ensures Normalize("São Paulo") == "sao paulo"
    ensures Normalize("ÀÉÎ") == "aei"
  {
    NormalizeAppend("São", " Paulo");
    assert "São" + " Paulo" == "São Paulo";
    assert Normalize("São") == "sao";
    assert Normalize(" Paulo") == " paulo";
  }

  // ---------------------------------------------------------------- natural_sort_key

  /** One key element: `(true, padded digits)` or `(false, lower-cased text)`. */
  datatype Token = Token(isDigit: bool, text: string)

  const PAD_WIDTH: nat := 10

  /** `format!("{:0>10}", run)`: left-pad with '0' to ten characters. */
  function PadDigits(run: string): (r: string)
    ensures |run| <= PAD_WIDTH ==> |r| == PAD_WIDTH
    ensures |run| >= PAD_WIDTH ==> r == run
    ensures EndsWith(r, run)
  {
    if |run| >= PAD_WIDTH then run else Zeros(PAD_WIDTH - |run|) + run
  }

  /** A run is non-empty and all of its characters are digits, or none is. */
  predicate IsRun(run: string) {
    |run| > 0 && forall i :: 0 <= i < |run| ==> IsAsciiDigit(run[i]) == IsAsciiDigit(run[0])
  }

  predicate NonEmpty(runs: seq<string>) {
    forall i :: 0 <= i < |runs| ==> |runs[i]| > 0
  }

  /** Every run is a run, and consecutive runs are of different kinds: the runs are maximal. */
  predicate MaximalRuns(r: seq<string>) {
    (forall i :: 0 <= i < |r| ==> IsRun(r[i])) &&
    (forall i, j :: 0 <= i < |r| && j == i + 1 < |r| ==> IsRun(r[i]) && IsRun(r[j]) && IsAsciiDigit(r[i][0]) != IsAsciiDigit(r[j][0]))
  }

  function Flatten(runs: seq<string>): string {
    if |runs| == 0 then [] else Flatten(runs[..|runs| - 1]) + runs[|runs| - 1]
  }

  /** One step of the loop of `natural_sort_key`: the character extends the run in progress
      when it is of the same kind, and starts a new run otherwise. */
  function Step(rs: seq<string>, c: char): (r: seq<string>)
    requires NonEmpty(rs)
    ensures NonEmpty(r) && |r| > 0
    ensures IsAsciiDigit(r[|r| - 1][0]) == IsAsciiDigit(c)
  {
    if |rs| == 0 then [[c]]
    else
      var last := rs[|rs| - 1];
      if IsAsciiDigit(last[0]) == IsAsciiDigit(c) then rs[..|rs| - 1] + [last + [c]]
      else rs + [[c]]
  }

  /** The digit / non-digit runs of `s`, built one character at a time. */
  function Runs(s: string): (r: seq<string>)
    ensures NonEmpty(r)
    ensures |r| == 0 <==> |s| == 0
    ensures |s| > 0 ==> IsAsciiDigit(r[|r| - 1][0]) == IsAsciiDigit(s[|s| - 1])
  {
    if |s| == 0 then [] else Step(Runs(s[..|s| - 1]), s[|s| - 1])
  }

  lemma StepMaximal(rs: seq<string>, c: char)
    requires MaximalRuns(rs)
    ensures MaximalRuns(Step(rs, c))
    ensures Flatten(Step(rs, c)) == Flatten(rs) + [c]
  {
    var r := Step(rs, c);
    if |rs| == 0 {
      assert Flatten(r) == Flatten(r[..0]) + [c];
    } else {
      var last := rs[|rs| - 1];
      if IsAsciiDigit(last[0]) == IsAsciiDigit(c) {
        assert r[..|r| - 1] == rs[..|rs| - 1];
        assert IsRun(last + [c]);
      } else {
        assert r[..|r| - 1] == rs;
      }
    }
  }

  /** The runs are maximal and put back together give the input. */
  lemma {:induction false} RunsMaximal(s: string)
    ensures MaximalRuns(Runs(s))
    ensures Flatten(Runs(s)) == s
  {
    if |s| > 0 {
      RunsMaximal(s[..|s| - 1]);
      StepMaximal(Runs(s[..|s| - 1]), s[|s| - 1]);
      assert s == s[..|s| - 1] + [s[|s| - 1]];
    }
  }

  /** The key token of one run. */
  function RunToken(run: string): (t: Token)
    requires |run| > 0
  {
    if IsAsciiDigit(run[0]) then Token(true, PadDigits(run)) else Token(false, ToLower(run))
  }

  function Tokens(runs: seq<string>): (ts: seq<Token>)
    requires NonEmpty(runs)
    ensures |ts| == |runs|
  {
    seq(|runs|, i requires 0 <= i < |runs| => RunToken(runs[i]))
  }

  /** `natural_sort_key`, as a function. */
  function Key(s: string): seq<Token> {
    Tokens(Runs(s))
  }

  lemma TokensSnoc(rs: seq<string>, x: string)
    requires NonEmpty(rs) && |x| > 0
    ensures Tokens(rs + [x]) == Tokens(rs) + [RunToken(x)]
  {
  }

  lemma RunsPrefixStep(s: string, i: nat)
    requires i < |s|
    ensures Runs(s[..i + 1]) == Step(Runs(s[..i]), s[i])
  {
    assert s[..i + 1][..i] == s[..i];
  }

  /** The loop's step in terms of the run in progress. */
  lemma StepOnCurrent(finished: seq<string>, current: string, ch: char)
    requires NonEmpty(finished) && |current| > 0
    ensures IsAsciiDigit(current[0]) == IsAsciiDigit(ch) ==> Step(finished + [current], ch) == finished + [current + [ch]]
    ensures IsAsciiDigit(current[0]) != IsAsciiDigit(ch) ==> Step(finished + [current], ch) == finished + [current] + [[ch]]
  {
    assert (finished + [current])[|finished|] == current;
    assert (finished + [current])[..|finished|] == finished;
  }

  /** `natural_sort_key` as the source writes it: one pass over the characters, `current`
      collecting the run in progress. */
  method NaturalSortKey(s: string) returns (result: seq<Token>)
    ensures result == Key(s)
  {
    result := [];
    var current: string := [];
    var isDigit := false;
    ghost var finished: seq<string> := [];
    ghost var runs: seq<string> := [];
    var i := 0;
    while i < |s|
      invariant 0 <= i <= |s|
      invariant runs == Runs(s[..i])
      invariant i == 0 ==> current == [] && finished == [] && runs == []
      invariant i > 0 ==> |current| > 0 && isDigit == IsAsciiDigit(current[0])
      invariant i > 0 ==> runs == finished + [current]
      invariant NonEmpty(finished)
      invariant result == Tokens(finished)
    {
      var ch := s[i];
      var chIsDigit := IsAsciiDigit(ch);
      RunsPrefixStep(s, i);
      if current == [] {
        isDigit := chIsDigit;
        current := [ch];
      } else if isDigit == chIsDigit {
        StepOnCurrent(finished, current, ch);
        current := current + [ch];
      } else {
        StepOnCurrent(finished, current, ch);
        TokensSnoc(finished, current);
        result := result + [RunToken(current)];
        finished := finished + [current];
        current := [ch];
        isDigit := chIsDigit;
      }
      runs := Step(runs, ch);
      i := i + 1;
    }
    if current != [] {
      TokensSnoc(finished, current);
      result := result + [RunToken(current)];
      finished := finished + [current];
    }
    assert s[..i] == s;
  }

  /** The shape of a key: empty exactly for the empty name; otherwise non-empty tokens whose
      kinds alternate, a digit token being made of ASCII digits only, a text token of none. */
  lemma KeyShape(s: string)
    ensures |Key(s)| == 0 <==> |s| == 0
    ensures forall i :: 0 <= i < |Key(s)| ==> |Key(s)[i].text| > 0
    ensures forall i, j :: 0 <= i < |Key(s)| && j == i + 1 < |Key(s)| ==> Key(s)[i].isDigit != Key(s)[j].isDigit
    ensures forall i :: 0 <= i < |Key(s)| ==> (Key(s)[i].isDigit <==> AllDigits(Key(s)[i].text))
  {
    var rs := Runs(s);
    var k := Key(s);
    RunsMaximal(s);
    forall i | 0 <= i < |rs|
      ensures |k[i].text| > 0
      ensures k[i].isDigit <==> AllDigits(k[i].text)
      ensures k[i].isDigit == IsAsciiDigit(rs[i][0])
    {
      RunTokenShape(rs[i]);
    }
  }

  /** The token of one run is non-empty, and it is a digit token exactly when the run is made
      of digits, in which case its text is all digits. */
  lemma RunTokenShape(run: string)
    requires IsRun(run)
    ensures |RunToken(run).text| > 0
    ensures RunToken(run).isDigit == IsAsciiDigit(run[0])
    ensures RunToken(run).isDigit <==> AllDigits(RunToken(run).text)
  {
    if IsAsciiDigit(run[0]) {
      PadDigitsAllDigits(run);
    } else {
      assert !IsAsciiDigit(ToLower(run)[0]);
    }
  }

  /** Padding a run of digits with zeros keeps it all digits. */
  lemma PadDigitsAllDigits(run: string)
    requires IsRun(run) && IsAsciiDigit(run[0])
    ensures AllDigits(PadDigits(run))
  {
    if |run| < PAD_WIDTH {
      var z := Zeros(PAD_WIDTH - |run|);
      forall n | 0 <= n < |z + run| ensures IsAsciiDigit((z + run)[n]) {
        if n >= |z| { assert (z + run)[n] == run[n - |z|]; }
      }
    }
  }

  /** Every text token is the lower-cased run; every digit token is the run zero-padded. */
  lemma KeyTokensFromRuns(s: string)
    ensures forall i :: 0 <= i < |Key(s)| && !Key(s)[i].isDigit ==> Key(s)[i].text == ToLower(Runs(s)[i])
    ensures forall i :: 0 <= i < |Key(s)| && Key(s)[i].isDigit ==> Key(s)[i].text == PadDigits(Runs(s)[i])
  {
  }

  // ---------------------------------------------------------------- the order of keys

  /** `(bool, String)` order: `false` before `true`, then the text. */
  predicate TokenLe(a: Token, b: Token) {
    (!a.isDigit && b.isDigit) || (a.isDigit == b.isDigit && StrLe(a.text, b.text))
  }

  /** `Vec<(bool, String)>` order: lexicographic over tokens, a prefix first. */
  predicate KeyLe(a: seq<Token>, b: seq<Token>) {
    if |a| == 0 then true
    else if |b| == 0 then false
    else if a[0] == b[0] then KeyLe(a[1..], b[1..])
    else TokenLe(a[0], b[0])
  }

  predicate KeyLt(a: seq<Token>, b: seq<Token>) {
    KeyLe(a, b) && !KeyLe(b, a)
  }

  lemma TokenLeTotal(a: Token, b: Token)
    ensures TokenLe(a, b) || TokenLe(b, a)
    ensures TokenLe(a, b) && TokenLe(b, a) ==> a == b
  {
    StrLeTotal(a.text, b.text);
  }

  /** Key order is total (so `sort_by` with it is well defined) and antisymmetric. */
  lemma {:induction false} KeyLeTotal(a: seq<Token>, b: seq<Token>)
    ensures KeyLe(a, b) || KeyLe(b, a)
    ensures KeyLe(a, b) && KeyLe(b, a) ==> a == b
  {
    if |a| > 0 && |b| > 0 {
      if a[0] == b[0] {
        KeyLeTotal(a[1..], b[1..]);
        assert a == [a[0]] + a[1..] && b == [b[0]] + b[1..];
      } else {
        TokenLeTotal(a[0], b[0]);
      }
    }
  }

  /** Where two keys first differ, a text token sorts before a digit token. */
  lemma {:induction false} TextBeforeDigit(a: seq<Token>, b: seq<Token>, i: nat)
    requires i < |a| && i < |b| && a[..i] == b[..i]
    requires !a[i].isDigit && b[i].isDigit
    ensures KeyLt(a, b)
  {
    if i > 0 {
      assert a[0] == a[..i][0] && b[0] == b[..i][0];
      assert a[1..][..i - 1] == a[..i][1..] && b[1..][..i - 1] == b[..i][1..];
      TextBeforeDigit(a[1..], b[1..], i - 1);
    }
  }

  /** A key that is a proper prefix of another sorts first. */
  lemma {:induction false} PrefixFirst(a: seq<Token>, b: seq<Token>)
    requires |a| < |b| && b[..|a|] == a
    ensures KeyLt(a, b)
  {
    if |a| > 0 {
      assert a[0] == b[0];
      assert b[1..][..|a| - 1] == a[1..];
      PrefixFirst(a[1..], b[1..]);
    }
  }

  /** A smaller leading digit outweighs whatever follows it. */
  lemma HeadDominates(da: nat, db: nat, ra: nat, rb: nat, p: nat)
    requires da < db && ra < p
    ensures da * p + ra < db * p + rb
  {
    MulMonotone(da + 1, db, p);
    assert (da + 1) * p == da * p + p;
  }

  /** For digit strings of equal length, text order is numeric order. */
  lemma {:induction false} SameLengthDigitsOrder(a: string, b: string)
    requires |a| == |b| && AllDigits(a) && AllDigits(b)
    ensures StrLe(a, b) <==> Value(a) <= Value(b)
  {
    if |a| > 0 {
      var ta, tb := a[1..], b[1..];
      assert AllDigits(ta) && AllDigits(tb);
      ValueHead(a);
      ValueHead(b);
      ValueBound(ta);
      ValueBound(tb);
      var p := Pow10(|a| - 1);
      var da, db := DigitValue(a[0]), DigitValue(b[0]);
      assert Value(a) == da * p + Value(ta) && Value(b) == db * p + Value(tb);
      if a[0] == b[0] {
        SameLengthDigitsOrder(ta, tb);
      } else if a[0] < b[0] {
        HeadDominates(da, db, Value(ta), Value(tb), p);
      } else {
        HeadDominates(db, da, Value(tb), Value(ta), p);
      }
    }
  }

  /** Zero-padding to ten characters makes text order numeric order for runs of at most ten
      digits: "0000000002" sorts before "0000000010". */
  lemma PaddedOrderIsNumeric(x: string, y: string)
    requires AllDigits(x) && AllDigits(y) && |x| <= PAD_WIDTH && |y| <= PAD_WIDTH
    ensures AllDigits(PadDigits(x)) && AllDigits(PadDigits(y))
    ensures StrLe(PadDigits(x), PadDigits(y)) <==> Value(x) <= Value(y)
  {
    ValueLeadingZeros(Zeros(PAD_WIDTH - |x|), x);
    ValueLeadingZeros(Zeros(PAD_WIDTH - |y|), y);
    SameLengthDigitsOrder(PadDigits(x), PadDigits(y));
  }

  lemma RunsSnoc(u: string, c: char)
    ensures Runs(u + [c]) == Step(Runs(u), c)
  {
    assert (u + [c])[..|u|] == u;
  }

  /** A non-empty run without its last character, and that character. */
  lemma SplitLast(x: string)
    requires IsRun(x) && |x| > 1
    ensures IsRun(x[..|x| - 1]) && x[..|x| - 1][0] == x[0]
    ensures x == x[..|x| - 1] + [x[|x| - 1]]
    ensures IsAsciiDigit(x[|x| - 1]) == IsAsciiDigit(x[0])
  {
  }

  /** Appending a run of the other kind to a non-empty string adds exactly one run. */
  lemma {:induction false} RunsAppendRun(p: string, x: string)
    requires |p| > 0 && IsRun(x) && IsAsciiDigit(x[0]) != IsAsciiDigit(p[|p| - 1])
    ensures Runs(p + x) == Runs(p) + [x]
    decreases |x|
  {
    if |x| == 1 {
      RunsSnoc(p, x[0]);
      assert p + x == p + [x[0]];
    } else {
      var c := x[|x| - 1];
      var x' := x[..|x| - 1];
      SplitLast(x);
      assert p + x == (p + x') + [c];
      RunsSnoc(p + x', c);
      RunsAppendRun(p, x');
      StepOnCurrent(Runs(p), x', c);
      assert Runs(p + x) == Step(Runs(p) + [x'], c) == Runs(p) + [x' + [c]];
    }
  }

  /** A single run is its own decomposition. */
  lemma {:induction false} RunsOfRun(x: string)
    requires IsRun(x)
    ensures Runs(x) == [x]
    decreases |x|
  {
    if |x| == 1 {
      RunsSnoc([], x[0]);
      assert [] + [x[0]] == x;
    } else {
      var c := x[|x| - 1];
      var x' := x[..|x| - 1];
      SplitLast(x);
      RunsSnoc(x', c);
      RunsOfRun(x');
      StepOnCurrent([], x', c);
      assert [] + [x'] == [x'];
    }
  }

  /** The key of a text run followed by a digit run. */
  lemma KeyOfTextThenNumber(t: string, x: string)
    requires IsRun(t) && !IsAsciiDigit(t[0])
    requires IsRun(x) && IsAsciiDigit(x[0])
    ensures Key(t + x) == [Token(false, ToLower(t)), Token(true, PadDigits(x))]
  {
    RunsOfRun(t);
    RunsAppendRun(t, x);
    assert Runs(t + x) == [t, x];
  }

  lemma KeyLeSameHead(h: Token, a: Token, b: Token)
    ensures KeyLe([h, a], [h, b]) <==> a == b || TokenLe(a, b)
  {
    assert [h, a][1..] == [a] && [h, b][1..] == [b];
    assert KeyLe([h, a], [h, b]) == KeyLe([a], [b]);
    assert [a][1..] == [] && [b][1..] == [];
    assert KeyLe([a], [b]) == (a == b || TokenLe(a, b));
  }

  /** Names that share a text prefix and end in numbers of at most ten digits sort by the
      numbers' values: "Group 2" before "Group 10". */
  lemma NumberedNamesOrder(t: string, x: string, y: string)
    requires IsRun(t) && !IsAsciiDigit(t[0])
    requires IsRun(x) && IsAsciiDigit(x[0]) && |x| <= PAD_WIDTH
    requires IsRun(y) && IsAsciiDigit(y[0]) && |y| <= PAD_WIDTH
    ensures AllDigits(x) && AllDigits(y)
    ensures KeyLe(Key(t + x), Key(t + y)) <==> Value(x) <= Value(y)
  {
    KeyOfTextThenNumber(t, x);
    KeyOfTextThenNumber(t, y);
    var px, py := PadDigits(x), PadDigits(y);
    KeyLeSameHead(Token(false, ToLower(t)), Token(true, px), Token(true, py));
    StrLeTotal(px, px);
    PaddedOrderIsNumeric(x, y);
  }

  lemma GroupTwoBeforeGroupTen()
    ensures KeyLt(Key("Group 2"), Key("Group 10"))
  {
    var t := "Group ";
    assert t + "2" == "Group 2" && t + "10" == "Group 10";
    NumberedNamesOrder(t, "2", "10");
    NumberedNamesOrder(t, "10", "2");
    assert Value("10") == 10;
  }
}
