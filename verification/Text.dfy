/** Text utilities with the meaning of the standard library's: cutting at a
    character, white space, words, decimal numbers. */
module Text {
  predicate Free(s: string, c: char) {
    c !in s
  }

  /** The position of the first `c`, or the length of `s`. */
  function Cut(s: string, c: char): (i: nat)
    ensures i <= |s| && (forall j :: 0 <= j < i ==> s[j] != c) && (i < |s| ==> s[i] == c)
  {
    if s == [] || s[0] == c then 0 else Cut(s[1..], c) + 1
  }

  lemma CutAtFirst(x: string, c: char, rest: string)
    requires Free(x, c)
    ensures var s := x + [c] + rest; Cut(s, c) == |x| && s[..|x|] == x && s[|x| + 1..] == rest
  {
    var s := x + [c] + rest;
    assert s[..|x|] == x && s[|x|] == c;
    assert s[|x| + 1..] == rest;
    assert forall k :: 0 <= k < |x| ==> s[k] == x[k];
  }

  lemma SplitSame<T>(a: seq<T>, b: seq<T>, c: seq<T>, d: seq<T>)
    requires a + b == c + d && |a| == |c|
    ensures a == c && b == d
  {
    assert (a + b)[..|a|] == a && (a + b)[|a|..] == b;
    assert (c + d)[..|c|] == c && (c + d)[|c|..] == d;
  }

  lemma Concat<T>(a: seq<T>, b: seq<T>, c: seq<T>)
    ensures (a + b) + c == a + (b + c)
    ensures a != [] ==> (a + (b + c))[0] == a[0]
    ensures a == [] ==> a + b == b
  {
  }

  lemma Regroup<T>(a: seq<T>, b: seq<T>, c: seq<T>, d: seq<T>)
    ensures a + b + c + d == a + (b + (c + d)) && b + c + d == b + (c + d)
  {
  }

  // ---- white space ----

  predicate IsSpace(c: char) {
    || '\U{9}' <= c <= '\U{D}' || c == ' ' || c == '\U{85}' || c == '\U{A0}' || c == '\U{1680}'
    || '\U{2000}' <= c <= '\U{200A}' || c == '\U{2028}' || c == '\U{2029}' || c == '\U{202F}'
    || c == '\U{205F}' || c == '\U{3000}'
  }

  function WordLength(s: string): (n: nat)
    ensures n <= |s| && (s != [] && !IsSpace(s[0]) ==> n > 0)
  {
    if s == [] || IsSpace(s[0]) then 0 else WordLength(s[1..]) + 1
  }

  /** `split_whitespace`: the maximal runs of other characters. */
  function Words(s: string): seq<string>
    decreases |s|
  {
    if s == [] then []
    else if IsSpace(s[0]) then Words(s[1..])
    else
      var n := WordLength(s);
      [s[..n]] + Words(s[n..])
  }

  function TrimStart(s: string): string {
    if s != [] && IsSpace(s[0]) then TrimStart(s[1..]) else s
  }

  function TrimEnd(s: string): string {
    if s != [] && IsSpace(s[|s| - 1]) then TrimEnd(s[..|s| - 1]) else s
  }

  function Trim(s: string): string {
    TrimEnd(TrimStart(s))
  }

  lemma {:induction false} WordsTrimStart(s: string)
    ensures Words(TrimStart(s)) == Words(s)
    decreases |s|
  {
    if s != [] && IsSpace(s[0]) {
      WordsTrimStart(s[1..]);
    }
  }

  lemma {:induction false} WordLengthOfPrefix(s: string, c: char)
    requires IsSpace(c)
    ensures WordLength(s + [c]) == WordLength(s)
    decreases |s|
  {
    if s != [] {
      assert (s + [c])[1..] == s[1..] + [c];
      WordLengthOfPrefix(s[1..], c);
    }
  }

  lemma {:induction false} WordsDropSpace(s: string, c: char)
    requires IsSpace(c)
    ensures Words(s + [c]) == Words(s)
    decreases |s|
  {
    if s == [] {
      assert (s + [c])[1..] == [];
    } else if IsSpace(s[0]) {
      assert (s + [c])[1..] == s[1..] + [c];
      WordsDropSpace(s[1..], c);
    } else {
      WordLengthOfPrefix(s, c);
      var n := WordLength(s);
      assert (s + [c])[..n] == s[..n] && (s + [c])[n..] == s[n..] + [c];
      WordsDropSpace(s[n..], c);
    }
  }

  lemma {:induction false} WordsTrimEnd(s: string)
    ensures Words(TrimEnd(s)) == Words(s)
    decreases |s|
  {
    if s != [] && IsSpace(s[|s| - 1]) {
      var front := s[..|s| - 1];
      assert s == front + [s[|s| - 1]];
      WordsDropSpace(front, s[|s| - 1]);
      WordsTrimEnd(front);
    }
  }

  /** Trimming changes no word. */
  lemma WordsTrim(s: string)
    ensures Words(Trim(s)) == Words(s)
  {
    WordsTrimStart(s);
    WordsTrimEnd(TrimStart(s));
  }

  lemma {:induction false} TrimStartFirst(s: string)
    ensures TrimStart(s) == [] || !IsSpace(TrimStart(s)[0])
    decreases |s|
  {
    if s != [] && IsSpace(s[0]) {
      TrimStartFirst(s[1..]);
    }
  }

  lemma {:induction false} TrimEndFirst(s: string)
    requires s != [] && !IsSpace(s[0])
    ensures TrimEnd(s) != [] && TrimEnd(s)[0] == s[0] && TrimEnd(s) <= s
    decreases |s|
  {
    if IsSpace(s[|s| - 1]) {
      TrimEndFirst(s[..|s| - 1]);
    }
  }

  /** A text with words, trimmed, begins with its first word; a single word is
      the whole trimmed text. */
  lemma TrimBeginsWithWord(s: string)
    requires Words(s) != []
    ensures Trim(s) != [] && Words(s)[0] != [] && Trim(s)[0] == Words(s)[0][0]
    ensures Words(s)[0] <= Trim(s)
  {
    WordsTrim(s);
    TrimStartFirst(s);
    var t := TrimStart(s);
    WordsTrimStart(s);
    TrimEndFirst(t);
  }

  lemma {:induction false} NoWordsNothingElse(s: string)
    requires Words(s) == []
    ensures forall i :: 0 <= i < |s| ==> IsSpace(s[i])
    decreases |s|
  {
    if s != [] {
      NoWordsNothingElse(s[1..]);
      assert forall i :: 0 < i < |s| ==> s[i] == s[1..][i - 1];
    }
  }

  lemma {:induction false} TrimEndLast(s: string)
    ensures TrimEnd(s) == [] || !IsSpace(TrimEnd(s)[|TrimEnd(s)| - 1])
    decreases |s|
  {
    if s != [] && IsSpace(s[|s| - 1]) {
      TrimEndLast(s[..|s| - 1]);
    }
  }

  lemma BlankEnd(t: string, n: nat)
    requires n < |t| && Words(t[n..]) == []
    ensures IsSpace(t[|t| - 1])
  {
    NoWordsNothingElse(t[n..]);
    assert t[n..][|t| - n - 1] == t[|t| - 1];
  }

  /** A text that starts with no blank starts with its first word. */
  lemma FirstWord(s: string)
    requires s != [] && !IsSpace(s[0])
    ensures Words(s) != [] && Words(s)[0] != [] && Words(s)[0][0] == s[0]
  {
  }

  /** Without words nothing is left of a trimmed text; a single word is all of it. */
  lemma TrimOfOneWord(s: string)
    ensures Words(s) == [] ==> Trim(s) == []
    ensures |Words(s)| == 1 ==> Trim(s) == Words(s)[0]
  {
    var t := Trim(s);
    WordsTrim(s);
    TrimStartFirst(s);
    TrimEndLast(TrimStart(s));
    if TrimStart(s) != [] {
      TrimEndFirst(TrimStart(s));
    }
    if t != [] {
      var n := WordLength(t);
      assert n == |t| ==> t[..n] == t;
      if |Words(s)| == 1 && n < |t| {
        BlankEnd(t, n);
      }
    }
  }

  // ---- decimal numbers ----

  const DIGITS := "0123456789"

  predicate IsDigit(c: char) {
    '0' <= c <= '9'
  }

  predicate AllDigits(s: string) {
    forall i :: 0 <= i < |s| ==> IsDigit(s[i])
  }

  function DigitValue(c: char): (d: nat)
    requires IsDigit(c)
    ensures d < 10
  {
    c as int - '0' as int
  }

  /** The decimal text of a number. */
  function Decimal(n: nat): (s: string)
    ensures s != [] && AllDigits(s) && (|s| > 1 ==> s[0] != '0')
  {
    if n < 10 then [DIGITS[n]] else Decimal(n / 10) + [DIGITS[n % 10]]
  }

  function Number(s: string): nat
    requires AllDigits(s)
  {
    if s == [] then 0 else Number(s[..|s| - 1]) * 10 + DigitValue(s[|s| - 1])
  }

  lemma {:induction false} NumberOfDecimal(n: nat)
    ensures Number(Decimal(n)) == n
  {
    assert DigitValue(DIGITS[n % 10]) == n % 10;
    if n < 10 {
      assert Decimal(n)[..0] == [];
    } else {
      NumberOfDecimal(n / 10);
      assert Decimal(n)[..|Decimal(n)| - 1] == Decimal(n / 10);
    }
  }
}
