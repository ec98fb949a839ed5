/**
 * The behaviour of the Python `str` operations the chat front end relies on:
 * `strip()`, the substring test `in`, `split(sep)`, `sep.join(...)` and
 * `str(n)` for a non-negative integer.  Strings are sequences of Unicode
 * scalar values.  A Python string is a sequence of code points and may also
 * hold lone surrogates (for instance from a `\ud83d` escape in a JSON reply);
 * those cannot be represented here, and none of the operations modelled
 * treats them specially.
 */
module PyStr {
  import opened Wrappers

  /** The characters for which Python's `str.isspace()` holds; `strip()` with no argument removes exactly these. */
  predicate IsSpace(c: char) {
    || c == ' ' || '\t' <= c <= '\r' || '\U{1c}' <= c <= '\U{1f}' || c == '\U{85}' || c == '\U{a0}'
    || c == '\U{1680}' || '\U{2000}' <= c <= '\U{200a}' || c == '\U{2028}' || c == '\U{2029}'
    || c == '\U{202f}' || c == '\U{205f}' || c == '\U{3000}'
  }

  /** A string made only of whitespace (the empty string included). */
  predicate IsBlank(s: string) {
    forall i :: 0 <= i < |s| ==> IsSpace(s[i])
  }

  predicate StartsWith(s: string, prefix: string) {
    |prefix| <= |s| && s[..|prefix|] == prefix
  }

  predicate EndsWith(s: string, suffix: string) {
    |suffix| <= |s| && s[|s| - |suffix|..] == suffix
  }

  /** A concatenation starts with its left operand and ends with its right one. */
  lemma ConcatEnds(a: string, b: string)
    ensures StartsWith(a + b, a) && EndsWith(a + b, b)
  {
    assert (a + b)[..|a|] == a;
    assert (a + b)[|a|..] == b;
  }

  /** `sub` occurs in `s` starting at index `i`. */
  predicate OccursAt(s: string, sub: string, i: int) {
    0 <= i && i + |sub| <= |s| && s[i..i + |sub|] == sub
  }

  /** Python's `sub in s`. */
  predicate Contains(s: string, sub: string) {
    exists i :: 0 <= i <= |s| - |sub| && OccursAt(s, sub, i)
  }

  /** The leading-whitespace half of `strip()`. */
  function TrimStart(s: string): string
    decreases |s|
  {
    if |s| > 0 && IsSpace(s[0]) then TrimStart(s[1..]) else s
  }

  /** `TrimStart(s)` is the longest suffix of `s` that does not start with whitespace: every character it drops is whitespace. */
  lemma {:induction false} TrimStartSpec(s: string)
    ensures var r := TrimStart(s);
            |r| <= |s| && r == s[|s| - |r|..] && (r == [] || !IsSpace(r[0]))
            && forall i :: 0 <= i < |s| - |r| ==> IsSpace(s[i])
    decreases |s|
  {
    if |s| > 0 && IsSpace(s[0]) {
      var t := s[1..];
      TrimStartSpec(t);
      assert t[|t| - |TrimStart(t)|..] == s[|s| - |TrimStart(t)|..];
    }
  }

  /** The trailing-whitespace half of `strip()`. */
  function TrimEnd(s: string): string
    decreases |s|
  {
    if |s| > 0 && IsSpace(s[|s| - 1]) then TrimEnd(s[..|s| - 1]) else s
  }

  /** `TrimEnd(s)` is the longest prefix of `s` that does not end with whitespace: every character it drops is whitespace. */
  lemma {:induction false} TrimEndSpec(s: string)
    ensures var r := TrimEnd(s);
            |r| <= |s| && r == s[..|r|] && (r == [] || !IsSpace(r[|r| - 1]))
            && forall i :: |r| <= i < |s| ==> IsSpace(s[i])
    decreases |s|
  {
    if |s| > 0 && IsSpace(s[|s| - 1]) {
      var p := s[..|s| - 1];
      TrimEndSpec(p);
      assert p[..|TrimEnd(p)|] == s[..|TrimEnd(p)|];
    }
  }

  /** Python's `s.strip()`. */
  function Strip(s: string): (r: string)
  {
    TrimEnd(TrimStart(s))
  }

  /** `strip()` removes whitespace, and only whitespace, from both ends: `s` is blank + `Strip(s)` + blank, and the result neither starts nor ends with whitespace. */
  lemma StripSpec(s: string)
    ensures |Strip(s)| <= |s|
    ensures exists i :: 0 <= i <= |s| - |Strip(s)| && s[i..i + |Strip(s)|] == Strip(s)
                       && IsBlank(s[..i]) && IsBlank(s[i + |Strip(s)|..])
    ensures Strip(s) == [] || (!IsSpace(Strip(s)[0]) && !IsSpace(Strip(s)[|Strip(s)| - 1]))
  {
    var t := TrimStart(s);
    var r := TrimEnd(t);
    TrimStartSpec(s);
    TrimEndSpec(t);
    var i := |s| - |t|;
    assert s[i..] == t;
    assert s[i..i + |r|] == t[..|r|] == r;
    var front, back := s[..i], s[i + |r|..];
    forall j | 0 <= j < |front|
      ensures IsSpace(front[j])
    {
      assert front[j] == s[j];
    }
    forall j | 0 <= j < |back|
      ensures IsSpace(back[j])
    {
      assert back[j] == t[|r| + j];
    }
    assert IsBlank(front) && IsBlank(back);
    assert s[i..i + |Strip(s)|] == Strip(s);
    if r != [] {
      assert r[0] == t[0];
    }
  }

  /** A string that neither starts nor ends with whitespace is left alone by `strip()`. */
  lemma StripTrimmed(s: string)
    requires s == [] || (!IsSpace(s[0]) && !IsSpace(s[|s| - 1]))
    ensures Strip(s) == s
  {
    assert TrimStart(s) == s;
  }

  /** Stripping twice is stripping once. */
  lemma StripIdempotent(s: string)
    ensures Strip(Strip(s)) == Strip(s)
  {
    StripSpec(s);
    StripTrimmed(Strip(s));
  }

  /** Python's truth test `if s.strip():` fails exactly on blank strings. */
  lemma StripEmptyIffBlank(s: string)
    ensures Strip(s) == [] <==> IsBlank(s)
  {
    var t := TrimStart(s);
    TrimStartSpec(s);
    TrimEndSpec(t);
    assert s[|s| - |t|..] == t;
    if t != [] {
      assert t[0] == s[|s| - |t|];
    }
  }

  /** `sub` occurring in a slice of `s` occurs in `s`, shifted by where the slice starts. */
  lemma OccursInSlice(s: string, sub: string, a: int, b: int, i: int)
    requires 0 <= a <= b <= |s|
    requires OccursAt(s[a..b], sub, i)
    ensures OccursAt(s, sub, a + i)
  {
    forall k | 0 <= k < |sub|
      ensures s[a + i..a + i + |sub|][k] == sub[k]
    {
      assert s[a..b][i..i + |sub|][k] == sub[k];
    }
  }

  /** Python's truth value of `s.strip()`: it is true exactly when `s` is not blank. */
  predicate HasText(s: string): (b: bool)
    ensures b <==> !IsBlank(s)
  {
    StripEmptyIffBlank(s);
    Strip(s) != []
  }

  /** A slice of a string that does not contain `sub` does not contain it either. */
  lemma NotContainsSlice(s: string, sub: string, a: int, b: int)
    requires 0 <= a <= b <= |s|
    requires !Contains(s, sub)
    ensures !Contains(s[a..b], sub)
  {
    forall i | 0 <= i <= (b - a) - |sub|
      ensures !OccursAt(s[a..b], sub, i)
    {
      if OccursAt(s[a..b], sub, i) {
        OccursInSlice(s, sub, a, b, i);
      }
    }
  }

  /** Stripping cannot create an occurrence of `sub` that was not there. */
  lemma StripKeepsAbsence(s: string, sub: string)
    requires !Contains(s, sub)
    ensures !Contains(Strip(s), sub)
  {
    var t := TrimStart(s);
    TrimStartSpec(s);
    assert t == s[|s| - |t|..|s|];
    NotContainsSlice(s, sub, |s| - |t|, |s|);
    var r := TrimEnd(t);
    TrimEndSpec(t);
    assert r == t[0..|r|];
    NotContainsSlice(t, sub, 0, |r|);
  }

  /** A string in which some character of `sub` never appears cannot contain `sub`. */
  lemma NotContainsByChar(s: string, sub: string, j: int)
    requires 0 <= j < |sub|
    requires forall k :: 0 <= k < |s| ==> s[k] != sub[j]
    ensures !Contains(s, sub)
  {
    forall i | 0 <= i <= |s| - |sub|
      ensures !OccursAt(s, sub, i)
    {
      assert s[i..i + |sub|][j] == s[i + j];
    }
  }

  /** The first index at which `sub` occurs in `s`, as Python's `s.find(sub)` reports it. */
  function FindFirst(s: string, sub: string): (r: Option<nat>)
    requires |sub| > 0
    ensures r.Some? ==> r.value + |sub| <= |s|
    decreases |s|
  {
    if |s| < |sub| then
      None
    else if s[..|sub|] == sub then
      Some(0)
    else
      match FindFirst(s[1..], sub)
      case None => None
      case Some(i) => Some(i + 1)
  }

  /** An occurrence in `s` past its first character is an occurrence in `s[1..]`, one place earlier. */
  lemma OccursShift(s: string, sub: string, j: int)
    requires |s| > 0 && 1 <= j
    ensures OccursAt(s, sub, j) <==> OccursAt(s[1..], sub, j - 1)
  {
    if j + |sub| <= |s| {
      assert s[1..][j - 1..j - 1 + |sub|] == s[j..j + |sub|];
    }
  }

  /** `FindFirst` finds an occurrence exactly when there is one, and no occurrence comes before the one it finds. */
  lemma {:induction false} FindFirstSpec(s: string, sub: string)
    requires |sub| > 0
    ensures FindFirst(s, sub).Some? ==> OccursAt(s, sub, FindFirst(s, sub).value)
    ensures FindFirst(s, sub).Some? ==> forall j :: 0 <= j < FindFirst(s, sub).value ==> !OccursAt(s, sub, j)
    ensures FindFirst(s, sub).None? <==> !Contains(s, sub)
    decreases |s|
  {
    if |s| >= |sub| && s[..|sub|] == sub {
      assert OccursAt(s, sub, 0);
    } else if |s| >= |sub| {
      var t := s[1..];
      FindFirstSpec(t, sub);
      assert !OccursAt(s, sub, 0);
      match FindFirst(t, sub)
      case None =>
        forall i | 0 <= i <= |s| - |sub|
          ensures !OccursAt(s, sub, i)
        {
          if i > 0 {
            OccursShift(s, sub, i);
          }
        }
      case Some(k) =>
        OccursShift(s, sub, k + 1);
        forall j | 1 <= j < k + 1
          ensures !OccursAt(s, sub, j)
        {
          OccursShift(s, sub, j);
        }
    }
  }

  /** When `sub` occurs in `s`, `FindFirst` reports an index at which it occurs. */
  lemma FindFirstFound(s: string, sub: string)
    requires |sub| > 0 && Contains(s, sub)
    ensures FindFirst(s, sub).Some? && OccursAt(s, sub, FindFirst(s, sub).value)
  {
    FindFirstSpec(s, sub);
  }

  /** A piece of `s` that ends before the first occurrence of `sep` does not contain `sep`. */
  lemma BeforeFirstOccurrence(s: string, sep: string, i: nat)
    requires |sep| > 0 && i <= |s|
    requires forall j :: 0 <= j < i ==> !OccursAt(s, sep, j)
    ensures !Contains(s[..i], sep)
  {
    assert s[..i] == s[0..i];
    forall j | 0 <= j <= i - |sep|
      ensures !OccursAt(s[..i], sep, j)
    {
      if OccursAt(s[..i], sep, j) {
        OccursInSlice(s, sep, 0, i, j);
      }
    }
  }

  /** Python's `s.split(sep)` for a non-empty separator: the pieces between the occurrences of `sep` found from left to right. */
  function Split(s: string, sep: string): (r: seq<string>)
    requires |sep| > 0
    ensures |r| >= 1
    decreases |s|
  {
    match FindFirst(s, sep)
    case None => [s]
    case Some(i) => [s[..i]] + Split(s[i + |sep|..], sep)
  }

  /** No piece of a split contains the separator. */
  lemma {:induction false} SplitSpec(s: string, sep: string)
    requires |sep| > 0
    ensures forall k :: 0 <= k < |Split(s, sep)| ==> !Contains(Split(s, sep)[k], sep)
    decreases |s|
  {
    FindFirstSpec(s, sep);
    match FindFirst(s, sep)
    case None =>
    case Some(i) =>
      var t := s[i + |sep|..];
      SplitSpec(t, sep);
      BeforeFirstOccurrence(s, sep, i);
      assert Split(s, sep) == [s[..i]] + Split(t, sep);
  }

  /** Python's `s.split(sep)[-1]`. */
  function LastPiece(s: string, sep: string): string
    requires |sep| > 0
  {
    var pieces := Split(s, sep);
    pieces[|pieces| - 1]
  }

  /** Past the first occurrence of `sep`, the last piece is the last piece of what follows that occurrence. */
  lemma LastPieceStep(s: string, sep: string, i: nat)
    requires |sep| > 0 && FindFirst(s, sep) == Some(i)
    ensures LastPiece(s, sep) == LastPiece(s[i + |sep|..], sep)
  {
    var pieces := Split(s, sep);
    var rest := Split(s[i + |sep|..], sep);
    assert pieces == [s[..i]] + rest;
    assert pieces[|pieces| - 1] == rest[|rest| - 1];
  }

  /** Without an occurrence of `sep` the last piece is the whole string. */
  lemma LastPieceWhole(s: string, sep: string)
    requires |sep| > 0 && !Contains(s, sep)
    ensures LastPiece(s, sep) == s
  {
    FindFirstSpec(s, sep);
  }

  /** A suffix of a suffix of `s` is a suffix of `s`. */
  lemma EndsWithSuffix(s: string, a: nat, x: string)
    requires a <= |s| && EndsWith(s[a..], x)
    ensures EndsWith(s, x)
  {
    assert s[a..][|s| - a - |x|..] == s[|s| - |x|..];
  }

  /** The last piece of a split is a suffix of the string split. */
  lemma {:induction false} LastPieceSuffix(s: string, sep: string)
    requires |sep| > 0
    ensures EndsWith(s, LastPiece(s, sep))
    decreases |s|
  {
    match FindFirst(s, sep)
    case None =>
    case Some(i) =>
      LastPieceStep(s, sep, i);
      LastPieceSuffix(s[i + |sep|..], sep);
      EndsWithSuffix(s, i + |sep|, LastPiece(s, sep));
  }

  /** `sub` occurring in a suffix of `s` occurs in `s`, shifted by where the suffix starts. */
  lemma OccursInSuffix(s: string, sub: string, a: nat, j: int)
    requires a <= |s| && OccursAt(s[a..], sub, j)
    ensures OccursAt(s, sub, a + j)
  {
    assert s[a..] == s[a..|s|];
    OccursInSlice(s, sub, a, |s|, j);
  }

  /** When `sep` occurs in `s`, an occurrence of it ends right where the last piece begins. */
  lemma {:induction false} LastPieceFollowsSeparator(s: string, sep: string)
    requires |sep| > 0 && Contains(s, sep)
    ensures |LastPiece(s, sep)| + |sep| <= |s|
    ensures OccursAt(s, sep, |s| - |LastPiece(s, sep)| - |sep|)
    decreases |s|
  {
    FindFirstFound(s, sep);
    var i := FindFirst(s, sep).value;
    var a := i + |sep|;
    var t := s[a..];
    LastPieceStep(s, sep, i);
    if Contains(t, sep) {
      LastPieceFollowsSeparator(t, sep);
      OccursInSuffix(s, sep, a, |t| - |LastPiece(t, sep)| - |sep|);
    } else {
      LastPieceWhole(t, sep);
    }
  }

  /**
   * The last piece of a split is a suffix of `s` free of `sep`; it is all of `s`
   * exactly when `sep` does not occur, and otherwise an occurrence of `sep`
   * ends right where it begins.
   */
  lemma LastPieceSpec(s: string, sep: string)
    requires |sep| > 0
    ensures !Contains(LastPiece(s, sep), sep)
    ensures EndsWith(s, LastPiece(s, sep))
    ensures !Contains(s, sep) <==> LastPiece(s, sep) == s
    ensures Contains(s, sep) ==> OccursAt(s, sep, |s| - |LastPiece(s, sep)| - |sep|)
  {
    LastPieceSuffix(s, sep);
    SplitSpec(s, sep);
    FindFirstSpec(s, sep);
    if Contains(s, sep) {
      LastPieceFollowsSeparator(s, sep);
    }
  }

  /** Python's `sep.join(pieces)`. */
  function Join(pieces: seq<string>, sep: string): string
  {
    if |pieces| == 0 then []
    else if |pieces| == 1 then pieces[0]
    else pieces[0] + sep + Join(pieces[1..], sep)
  }

  /** Joining the pieces of a split with the same separator gives back the original string. */
  lemma {:induction false} JoinSplit(s: string, sep: string)
    requires |sep| > 0
    ensures Join(Split(s, sep), sep) == s
    decreases |s|
  {
    FindFirstSpec(s, sep);
    match FindFirst(s, sep)
    case None =>
    case Some(i) =>
      var tail := s[i + |sep|..];
      var rest := Split(tail, sep);
      var pieces := [s[..i]] + rest;
      assert Split(s, sep) == pieces;
      assert pieces[1..] == rest;
      JoinSplit(tail, sep);
      assert Join(pieces, sep) == s[..i] + sep + tail;
      assert s[i..i + |sep|] == sep;
      assert s == s[..i] + s[i..i + |sep|] + tail;
  }

  /** Splitting a join on a one-character separator gives the pieces back, provided no piece contains the separator. */
  lemma {:induction false} SplitJoin(pieces: seq<string>, sep: string)
    requires |sep| == 1 && |pieces| >= 1
    requires forall k :: 0 <= k < |pieces| ==> !Contains(pieces[k], sep)
    ensures Split(Join(pieces, sep), sep) == pieces
    decreases |pieces|
  {
    if |pieces| == 1 {
      FindFirstSpec(pieces[0], sep);
    } else {
      var head := pieces[0];
      var tail := Join(pieces[1..], sep);
      var s := head + sep + tail;
      assert Join(pieces, sep) == s;
      SplitJoin(pieces[1..], sep);
      assert OccursAt(s, sep, |head|) by {
        assert s[|head|..|head| + |sep|] == sep;
      }
      forall j | 0 <= j < |head|
        ensures !OccursAt(s, sep, j)
      {
        assert s[j..j + 1] == head[j..j + 1];
        assert !OccursAt(head, sep, j);
      }
      FindFirstSpec(s, sep);
      assert FindFirst(s, sep) == Some(|head|);
      assert s[..|head|] == head;
      assert s[|head| + |sep|..] == tail;
    }
  }

  /** The decimal digit for `d`. */
  function DigitChar(d: nat): char
    requires d < 10
  {
    ['0', '1', '2', '3', '4', '5', '6', '7', '8', '9'][d]
  }

  /** The value of a decimal digit character. */
  function DigitValue(c: char): nat
  {
    if '0' <= c <= '9' then (c - '0') as nat else 0
  }

  /** Python's `str(n)` for a non-negative integer: its decimal digits, with no leading zero. */
  function DecimalString(n: nat): (r: string)
    ensures |r| >= 1
    ensures forall k :: 0 <= k < |r| ==> '0' <= r[k] <= '9'
    ensures r[0] == '0' ==> n == 0
    decreases n
  {
    if n < 10 then [DigitChar(n)] else DecimalString(n / 10) + [DigitChar(n % 10)]
  }

  /** The number a string of decimal digits denotes, as Python's `int(s)` reads it. */
  function DecimalValue(s: string): nat
  {
    if |s| == 0 then 0 else 10 * DecimalValue(s[..|s| - 1]) + DigitValue(s[|s| - 1])
  }

  /** Reading back the digits `str(n)` writes gives `n`. */
  lemma {:induction false} DecimalRoundTrip(n: nat)
    ensures DecimalValue(DecimalString(n)) == n
    decreases n
  {
    var r := DecimalString(n);
    if n < 10 {
      assert r[..0] == [];
      DigitRoundTrip(n);
    } else {
      DecimalRoundTrip(n / 10);
      assert r[..|r| - 1] == DecimalString(n / 10);
      DigitRoundTrip(n % 10);
    }
  }

  /** A digit's character reads back as that digit. */
  lemma DigitRoundTrip(d: nat)
    requires d < 10
    ensures DigitValue(DigitChar(d)) == d
  {
  }
}
