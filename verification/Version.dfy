/** version_compare of fwupdate/fwmanifest.c and the order it decides. */
module Version {

  // ------------------------------------------------------ character classes

  predicate IsDigit(c: char) { '0' <= c <= '9' }

  predicate IsAlpha(c: char) { 'a' <= c <= 'z' || 'A' <= c <= 'Z' }

  predicate IsAlnum(c: char) { IsDigit(c) || IsAlpha(c) }

  function Lower(c: char): char {
    if 'A' <= c <= 'Z' then (c as int + 32) as char else c
  }

  // ------------------------------------------------------------------ tokens

  /** A maximal run of digits, by value, or of letters, case folded. */
  datatype Token = Number(value: nat) | Word(letters: string)

  /** The end of the run of digits (or letters) that starts at `i`. */
  function DigitsEnd(s: string, i: nat): (e: nat)
    requires i <= |s|
    ensures i <= e <= |s|
    ensures forall k :: i <= k < e ==> IsDigit(s[k])
    ensures e < |s| ==> !IsDigit(s[e])
    decreases |s| - i
  {
    if i < |s| && IsDigit(s[i]) then DigitsEnd(s, i + 1) else i
  }

  function LettersEnd(s: string, i: nat): (e: nat)
    requires i <= |s|
    ensures i <= e <= |s|
    ensures forall k :: i <= k < e ==> IsAlpha(s[k])
    ensures e < |s| ==> !IsAlpha(s[e])
    decreases |s| - i
  {
    if i < |s| && IsAlpha(s[i]) then LettersEnd(s, i + 1) else i
  }

  function SeparatorsEnd(s: string, i: nat): (e: nat)
    requires i <= |s|
    ensures i <= e <= |s|
    ensures forall k :: i <= k < e ==> !IsAlnum(s[k])
    ensures e < |s| ==> IsAlnum(s[e])
    decreases |s| - i
  {
    if i < |s| && !IsAlnum(s[i]) then SeparatorsEnd(s, i + 1) else i
  }

  function Fold(s: string): (r: string)
    ensures |r| == |s|
    ensures forall k :: 0 <= k < |s| ==> r[k] == Lower(s[k])
  {
    seq(|s|, k requires 0 <= k < |s| => Lower(s[k]))
  }

  /** The number a digit string denotes. */
  function Value(d: string): nat
    requires forall k :: 0 <= k < |d| ==> IsDigit(d[k])
  {
    if |d| == 0 then 0 else assert IsDigit(d[|d| - 1]); 10 * Value(d[..|d| - 1]) + (d[|d| - 1] as int - '0' as int)
  }

  /** The tokens of `s` from position `i` on. */
  function TokensFrom(s: string, i: nat): seq<Token>
    requires i <= |s|
    decreases |s| - i
  {
    var a := SeparatorsEnd(s, i);
    if a == |s| then []
    else if IsDigit(s[a]) then [Number(Value(s[a..DigitsEnd(s, a)]))] + TokensFrom(s, DigitsEnd(s, a))
    else [Word(Fold(s[a..LettersEnd(s, a)]))] + TokensFrom(s, LettersEnd(s, a))
  }

  function Tokens(s: string): seq<Token> {
    TokensFrom(s, 0)
  }

  // ------------------------------------------------------------------- order

  function Sign(a: int, b: int): int {
    if a < b then -1 else if a > b then 1 else 0
  }

  /** Letters in order, a shorter word before its extensions. */
  function CompareWords(a: string, b: string): int
    decreases |a|
  {
    if a == "" || b == "" then Sign(|a|, |b|)
    else if a[0] != b[0] then Sign(a[0] as int, b[0] as int)
    else CompareWords(a[1..], b[1..])
  }

  /** Words below numbers. */
  function CompareToken(a: Token, b: Token): int {
    match (a, b)
    case (Number(x), Number(y)) => Sign(x, y)
    case (Word(x), Word(y)) => CompareWords(x, y)
    case (Number(_), Word(_)) => 1
    case (Word(_), Number(_)) => -1
  }

  /** Token by token, a shorter list before its extensions. */
  function CompareTokens(a: seq<Token>, b: seq<Token>): int
    decreases |a|
  {
    if a == [] || b == [] then Sign(|a|, |b|)
    else if CompareToken(a[0], b[0]) != 0 then CompareToken(a[0], b[0])
    else CompareTokens(a[1..], b[1..])
  }

  // ------------------------------------------------ the order, written down

  /** The first place where two lists differ, or where the first of them ends. */
  ghost predicate PartAt<T>(a: seq<T>, b: seq<T>, k: nat): (r: bool)
    ensures r ==> k <= |a| && k < |b|
  {
    k <= |a| && k < |b| && (forall i :: 0 <= i < k ==> a[i] == b[i]) && (k < |a| ==> a[k] != b[k])
  }

  lemma PartRest<T>(a: seq<T>, b: seq<T>, k: nat)
    requires a != [] && b != [] && a[0] == b[0]
    ensures PartAt(a[1..], b[1..], k) <==> PartAt(a, b, k + 1)
  {
    if PartAt(a[1..], b[1..], k) {
      forall i | 0 <= i < k + 1 ensures a[i] == b[i] {
        assert i > 0 ==> a[1..][i - 1] == b[1..][i - 1];
      }
    }
    if PartAt(a, b, k + 1) {
      forall i | 0 <= i < k ensures a[1..][i] == b[1..][i] {
        var next := i + 1;
        assert a[next] == b[next];
      }
    }
  }

  lemma PartFirst<T>(a: seq<T>, b: seq<T>, k: nat)
    ensures b != [] && (a == [] || a[0] != b[0]) ==> (PartAt(a, b, k) <==> k == 0)
    ensures b == [] ==> !PartAt(a, b, k)
    ensures a != [] && b != [] && a[0] == b[0] ==> !PartAt(a, b, 0)
  {
  }

  /** A word that ends where the other goes on comes first, and so does one with the
      smaller letter at the first difference. */
  ghost predicate WordBefore(a: string, b: string) {
    exists k: nat :: PartAt(a, b, k) && (k == |a| || a[k] < b[k])
  }

  /** A word comes before every number; numbers go by value. */
  ghost predicate TokenBefore(a: Token, b: Token) {
    || (a.Word? && b.Number?)
    || (a.Number? && b.Number? && a.value < b.value)
    || (a.Word? && b.Word? && WordBefore(a.letters, b.letters))
  }

  /** A version that ends where the other goes on comes first, and so does one with the
      smaller token at the first difference. */
  ghost predicate VersionBefore(a: seq<Token>, b: seq<Token>) {
    exists k: nat :: PartAt(a, b, k) && (k == |a| || TokenBefore(a[k], b[k]))
  }

  lemma {:induction false} WordBeforeIff(a: string, b: string)
    ensures CompareWords(a, b) == -1 <==> WordBefore(a, b)
    decreases |a|
  {
    hide PartAt;
    PartFirst(a, b, 0);
    if a != "" && b != "" && a[0] == b[0] {
      WordBeforeIff(a[1..], b[1..]);
      WordBeforeRest(a, b);
    } else if WordBefore(a, b) {
      var k: nat :| PartAt(a, b, k) && (k == |a| || a[k] < b[k]);
      PartFirst(a, b, k);
    }
  }

  lemma WordBeforeRest(a: string, b: string)
    requires a != "" && b != "" && a[0] == b[0]
    ensures WordBefore(a, b) <==> WordBefore(a[1..], b[1..])
  {
    var x, y := a[1..], b[1..];
    if WordBefore(a, b) {
      var k: nat :| PartAt(a, b, k) && (k == |a| || a[k] < b[k]);
      PartFirst(a, b, k);
      PartRest(a, b, k - 1);
    }
    if WordBefore(x, y) {
      var k: nat :| PartAt(x, y, k) && (k == |x| || x[k] < y[k]);
      PartRest(a, b, k);
    }
  }

  lemma TokenBeforeIff(a: Token, b: Token)
    ensures CompareToken(a, b) == -1 <==> TokenBefore(a, b)
  {
    hide WordBefore, CompareWords;
    if a.Word? && b.Word? {
      WordBeforeIff(a.letters, b.letters);
    }
  }

  lemma {:induction false} VersionBeforeIff(a: seq<Token>, b: seq<Token>)
    ensures CompareTokens(a, b) == -1 <==> VersionBefore(a, b)
    decreases |a|
  {
    hide PartAt, TokenBefore, CompareToken;
    PartFirst(a, b, 0);
    if a != [] && b != [] {
      TokenOrder(a[0], b[0]);
      TokenBeforeIff(a[0], b[0]);
    }
    if a != [] && b != [] && a[0] == b[0] {
      VersionBeforeIff(a[1..], b[1..]);
      VersionBeforeRest(a, b);
    } else if VersionBefore(a, b) {
      var k: nat :| PartAt(a, b, k) && (k == |a| || TokenBefore(a[k], b[k]));
      PartFirst(a, b, k);
    }
  }

  lemma VersionBeforeRest(a: seq<Token>, b: seq<Token>)
    requires a != [] && b != [] && a[0] == b[0]
    ensures VersionBefore(a, b) <==> VersionBefore(a[1..], b[1..])
  {
    hide TokenBefore;
    var x, y := a[1..], b[1..];
    if VersionBefore(a, b) {
      var k: nat :| PartAt(a, b, k) && (k == |a| || TokenBefore(a[k], b[k]));
      PartFirst(a, b, k);
      PartRest(a, b, k - 1);
    }
    if VersionBefore(x, y) {
      var k: nat :| PartAt(x, y, k) && (k == |x| || TokenBefore(x[k], y[k]));
      PartRest(a, b, k);
    }
  }

  // ----------------------------------------------- comparing digits as strings

  predicate AllDigits(d: string) { forall k :: 0 <= k < |d| ==> IsDigit(d[k]) }

  function Pow10(n: nat): (p: nat)
    ensures 0 < p
  {
    if n == 0 then 1 else 10 * Pow10(n - 1)
  }

  lemma {:induction false} ValueBound(d: string)
    requires AllDigits(d)
    ensures Value(d) < Pow10(|d|)
  {
    if |d| > 0 {
      ValueBound(d[..|d| - 1]);
    }
  }

  lemma {:induction false} ValueLead(d: string)
    requires AllDigits(d) && d != "" && d[0] != '0'
    ensures Pow10(|d| - 1) <= Value(d)
  {
    if |d| > 1 {
      ValueLead(d[..|d| - 1]);
    } else {
      assert d[..0] == "";
    }
  }

  lemma {:induction false} Pow10Mono(m: nat, n: nat)
    requires m <= n
    ensures Pow10(m) <= Pow10(n)
  {
    if m < n {
      Pow10Mono(m, n - 1);
    }
  }

  /** Leading zeros do not count. */
  lemma {:induction false} ValueDropZero(d: string)
    requires AllDigits(d) && d != "" && d[0] == '0'
    ensures Value(d[1..]) == Value(d)
  {
    if |d| == 1 {
      assert d[..0] == "";
    } else {
      var init := d[..|d| - 1];
      ValueDropZero(init);
      assert d[1..][..|d| - 2] == init[1..];
    }
  }

  /** The first difference of two strings of one length. */
  function CompareSame(a: string, b: string): int
    requires |a| == |b|
    decreases |a|
  {
    if a == "" then 0
    else if a[0] != b[0] then Sign(a[0] as int, b[0] as int)
    else CompareSame(a[1..], b[1..])
  }

  lemma {:induction false} CompareSameSnoc(a: string, b: string)
    requires |a| == |b| > 0
    ensures var n := |a| - 1;
            CompareSame(a, b) == if CompareSame(a[..n], b[..n]) != 0 then CompareSame(a[..n], b[..n])
                                 else Sign(a[n] as int, b[n] as int)
    decreases |a|
  {
    var n := |a| - 1;
    if n > 0 {
      if a[0] == b[0] {
        CompareSameSnoc(a[1..], b[1..]);
        assert a[1..][..n - 1] == a[..n][1..] && b[1..][..n - 1] == b[..n][1..];
      }
    }
  }

  /** Digit strings of one length compare as the numbers they denote. */
  lemma {:induction false} EqualLengthDigits(a: string, b: string)
    requires |a| == |b| && AllDigits(a) && AllDigits(b)
    ensures CompareSame(a, b) == Sign(Value(a), Value(b))
    decreases |a|
  {
    if a != "" {
      var n := |a| - 1;
      EqualLengthDigits(a[..n], b[..n]);
      CompareSameSnoc(a, b);
    }
  }

  /** Without leading zeros a longer digit string denotes a larger number. */
  lemma LongerDigits(a: string, b: string)
    requires AllDigits(a) && AllDigits(b) && |a| < |b| && b[0] != '0'
    ensures Value(a) < Value(b)
  {
    ValueBound(a);
    ValueLead(b);
    Pow10Mono(|a|, |b| - 1);
  }

  // --------------------------------------------------------------- the program

  /** skip_separators. */
  method SkipSeparators(s: string, from: nat) returns (i: nat)
    requires from <= |s|
    ensures i == SeparatorsEnd(s, from)
  {
    i := from;
    while i < |s| && !IsAlnum(s[i])
      invariant from <= i <= |s| && SeparatorsEnd(s, i) == SeparatorsEnd(s, from)
    {
      i := i + 1;
    }
  }

  method SkipDigits(s: string, from: nat) returns (i: nat)
    requires from <= |s|
    ensures i == DigitsEnd(s, from)
  {
    i := from;
    while i < |s| && IsDigit(s[i])
      invariant from <= i <= |s| && DigitsEnd(s, i) == DigitsEnd(s, from)
    {
      i := i + 1;
    }
  }

  /** The loop that passes over leading zeros keeps the number. */
  method SkipZeros(s: string, from: nat) returns (i: nat)
    requires from <= |s|
    ensures from <= i && i <= DigitsEnd(s, from) == DigitsEnd(s, i)
    ensures Value(s[i..DigitsEnd(s, from)]) == Value(s[from..DigitsEnd(s, from)])
    ensures i < DigitsEnd(s, from) ==> s[i] != '0'
  {
    i := from;
    ghost var end := DigitsEnd(s, from);
    while i < |s| && s[i] == '0'
      invariant from <= i <= end <= |s| && DigitsEnd(s, i) == end
      invariant Value(s[i..end]) == Value(s[from..end])
    {
      ValueDropZero(s[i..end]);
      assert s[i..end][1..] == s[i + 1..end];
      i := i + 1;
    }
  }

  /** compare_numeric. */
  method CompareNumeric(left: string, a: nat, right: string, b: nat) returns (result: int, a': nat, b': nat)
    requires a < |left| && IsDigit(left[a]) && b < |right| && IsDigit(right[b])
    ensures a' == DigitsEnd(left, a) && b' == DigitsEnd(right, b)
    ensures result == Sign(Value(left[a..a']), Value(right[b..b']))
  {
    var x := SkipZeros(left, a);
    var y := SkipZeros(right, b);
    a' := SkipDigits(left, x);
    b' := SkipDigits(right, y);
    var alen, blen := a' - x, b' - y;
    var p, q := left[x..a'], right[y..b'];
    result := 0;
    if alen != blen {
      result := if alen < blen then -1 else 1;
      if alen < blen {
        LongerDigits(p, q);
      } else {
        LongerDigits(q, p);
      }
    } else {
      EqualLengthDigits(p, q);
      if alen != 0 {
        result := CompareSame(p, q);
      }
    }
  }

  /** compare_alpha.  The cursors move only when the words are equal so far. */
  method CompareAlpha(left: string, a: nat, right: string, b: nat) returns (result: int, a': nat, b': nat)
    requires a <= |left| && b <= |right|
    ensures result == CompareWords(Fold(left[a..LettersEnd(left, a)]), Fold(right[b..LettersEnd(right, b)]))
    ensures result == 0 ==> a' == LettersEnd(left, a) && b' == LettersEnd(right, b)
  {
    var x, y := a, b;
    ghost var ae, be := LettersEnd(left, a), LettersEnd(right, b);
    while x < |left| && IsAlpha(left[x]) && y < |right| && IsAlpha(right[y])
      invariant a <= x <= ae && LettersEnd(left, x) == ae
      invariant b <= y <= be && LettersEnd(right, y) == be
      invariant CompareWords(Fold(left[a..ae]), Fold(right[b..be])) == CompareWords(Fold(left[x..ae]),
                                                                                    Fold(right[y..be]))
    {
      var ac, bc := Lower(left[x]), Lower(right[y]);
      if ac != bc {
        return if ac < bc then -1 else 1, a, b;
      }
      assert Fold(left[x..ae])[1..] == Fold(left[x + 1..ae]);
      assert Fold(right[y..be])[1..] == Fold(right[y + 1..be]);
      x, y := x + 1, y + 1;
    }
    var aalpha, balpha := x < |left| && IsAlpha(left[x]), y < |right| && IsAlpha(right[y]);
    a', b' := x, y;
    if aalpha != balpha {
      result := if aalpha then 1 else -1;
    } else {
      result := 0;
    }
  }

  lemma AfterSeparators(s: string, i: nat)
    requires i <= |s|
    ensures TokensFrom(s, SeparatorsEnd(s, i)) == TokensFrom(s, i)
    ensures TokensFrom(s, i) == [] <==> SeparatorsEnd(s, i) == |s|
  {
  }

  /** version_compare decides the order of the token lists. */
  method VersionCompare(left: string, right: string) returns (r: int)
    ensures r == CompareTokens(Tokens(left), Tokens(right))
  {
    var a: nat, b: nat := 0, 0;
    while true
      invariant a <= |left| && b <= |right|
      invariant CompareTokens(TokensFrom(left, a), TokensFrom(right, b)) == CompareTokens(Tokens(left), Tokens(right))
      decreases |left| - a
    {
      AfterSeparators(left, a);
      AfterSeparators(right, b);
      a := SkipSeparators(left, a);
      b := SkipSeparators(right, b);
      if a == |left| || b == |right| {
        break;
      }
      var result;
      if IsDigit(left[a]) && IsDigit(right[b]) {
        result, a, b := CompareNumeric(left, a, right, b);
      } else if IsAlpha(left[a]) && IsAlpha(right[b]) {
        result, a, b := CompareAlpha(left, a, right, b);
      } else {
        return if IsDigit(left[a]) then 1 else -1;
      }
      if result != 0 {
        return result;
      }
    }
    AfterSeparators(left, a);
    AfterSeparators(right, b);
    a := SkipSeparators(left, a);
    b := SkipSeparators(right, b);
    if a == |left| && b == |right| {
      return 0;
    }
    r := if a < |left| then 1 else -1;
  }

  // ---------------------------------------------------------- a total preorder

  lemma {:induction false} WordsOrder(a: string, b: string)
    ensures CompareWords(a, b) == -CompareWords(b, a)
    ensures CompareWords(a, b) == 0 <==> a == b
    ensures -1 <= CompareWords(a, b) <= 1
    decreases |a|
  {
    if a != "" && b != "" {
      WordsOrder(a[1..], b[1..]);
      assert a == [a[0]] + a[1..] && b == [b[0]] + b[1..];
    }
  }

  lemma {:induction false} WordsTransitive(a: string, b: string, c: string)
    requires CompareWords(a, b) <= 0 && CompareWords(b, c) <= 0
    ensures CompareWords(a, c) <= 0
    decreases |a|
  {
    if a != "" && b != "" && c != "" && a[0] == b[0] && b[0] == c[0] {
      WordsTransitive(a[1..], b[1..], c[1..]);
    }
  }

  lemma TokenOrder(a: Token, b: Token)
    ensures CompareToken(a, b) == -CompareToken(b, a)
    ensures CompareToken(a, b) == 0 <==> a == b
    ensures -1 <= CompareToken(a, b) <= 1
  {
    if a.Word? && b.Word? {
      WordsOrder(a.letters, b.letters);
    }
  }

  lemma TokenTransitive(a: Token, b: Token, c: Token)
    requires CompareToken(a, b) <= 0 && CompareToken(b, c) <= 0
    ensures CompareToken(a, c) <= 0
  {
    if a.Word? && b.Word? && c.Word? {
      WordsTransitive(a.letters, b.letters, c.letters);
    }
  }

  lemma {:induction false} TokensOrder(a: seq<Token>, b: seq<Token>)
    ensures CompareTokens(a, b) == -CompareTokens(b, a)
    ensures CompareTokens(a, b) == 0 <==> a == b
    ensures -1 <= CompareTokens(a, b) <= 1
    decreases |a|
  {
    if a != [] && b != [] {
      TokenOrder(a[0], b[0]);
      TokensOrder(a[1..], b[1..]);
      assert a == [a[0]] + a[1..] && b == [b[0]] + b[1..];
    }
  }

  lemma {:induction false} TokensTransitive(a: seq<Token>, b: seq<Token>, c: seq<Token>)
    requires CompareTokens(a, b) <= 0 && CompareTokens(b, c) <= 0
    ensures CompareTokens(a, c) <= 0
    decreases |a|
  {
    if a != [] && b != [] && c != [] {
      TokenOrder(a[0], b[0]);
      TokenOrder(b[0], c[0]);
      TokenOrder(a[0], c[0]);
      TokenTransitive(a[0], b[0], c[0]);
      if a[0] == b[0] && b[0] == c[0] {
        TokensTransitive(a[1..], b[1..], c[1..]);
      }
    }
  }

  function Compare(left: string, right: string): int {
    CompareTokens(Tokens(left), Tokens(right))
  }

  /** The comparison is a total preorder on all strings, and it calls two
      versions equal exactly when their token lists agree. */
  lemma VersionOrder(a: string, b: string, c: string)
    ensures Compare(a, b) in {-1, 0, 1}
    ensures Compare(a, b) == -Compare(b, a)
    ensures Compare(a, b) == 0 <==> Tokens(a) == Tokens(b)
    ensures Compare(a, b) < 0 <==> VersionBefore(Tokens(a), Tokens(b))
    ensures Compare(a, b) <= 0 && Compare(b, c) <= 0 ==> Compare(a, c) <= 0
    ensures Compare(a, b) < 0 && Compare(b, c) <= 0 ==> Compare(a, c) < 0
    ensures Compare(a, b) <= 0 && Compare(b, c) < 0 ==> Compare(a, c) < 0
  {
    VersionBeforeIff(Tokens(a), Tokens(b));
    hide VersionBefore;
    TokensOrder(Tokens(a), Tokens(b));
    TokensOrder(Tokens(b), Tokens(c));
    TokensOrder(Tokens(a), Tokens(c));
    if Compare(a, b) <= 0 && Compare(b, c) <= 0 {
      TokensTransitive(Tokens(a), Tokens(b), Tokens(c));
      if Compare(a, c) == 0 {
        TokensOrder(Tokens(c), Tokens(b));
      }
    }
    hide Tokens, CompareTokens;
  }
}
