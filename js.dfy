/** The JavaScript built-ins the extension relies on, restated over Dafny
    strings: `indexOf`, `lastIndexOf`, `slice`, `split`, `join`, `replace`,
    `Number(...)` and `toString()` of an integer. */
module Js {

  /** `undefined` or a value. */
  datatype Option<+T> = None | Some(value: T)

  /** `d` occurs in `s` starting at index `i`. */
  predicate OccursAt(s: string, d: string, i: nat) {
    i + |d| <= |s| && s[i..i + |d|] == d
  }

  /** `s.indexOf(d, from)`: the first occurrence of `d` at or after `from`, or -1. */
  function IndexOfFrom(s: string, d: string, from: nat): (r: int)
    requires from <= |s|
    decreases |s| - from
    ensures r == -1 || (from <= r && OccursAt(s, d, r))
    ensures r == -1 ==> forall i: nat :: from <= i ==> !OccursAt(s, d, i)
    ensures r >= 0 ==> forall i: nat :: from <= i < r ==> !OccursAt(s, d, i)
  {
    if from + |d| > |s| then -1
    else if s[from..from + |d|] == d then from
    else IndexOfFrom(s, d, from + 1)
  }

  /** `s.indexOf(d)`. */
  function IndexOf(s: string, d: string): int {
    IndexOfFrom(s, d, 0)
  }

  /** `s.includes(d)`. */
  predicate Includes(s: string, d: string) {
    IndexOf(s, d) >= 0
  }

  /** `s.lastIndexOf(c)` for a one-character needle. */
  function LastIndexOf(s: string, c: char): (r: int)
    ensures -1 <= r < |s|
    ensures r == -1 <==> c !in s
    ensures r >= 0 ==> r < |s| && s[r] == c && c !in s[r + 1..]
  {
    if |s| == 0 then -1
    else if s[|s| - 1] == c then |s| - 1
    else
      assert s == s[..|s| - 1] + [s[|s| - 1]];
      LastIndexOf(s[..|s| - 1], c)
  }

  /** How `slice` turns a possibly negative index into a position in a string of length `len`. */
  function ClampIndex(i: int, len: nat): nat {
    if i < 0 then (if len + i < 0 then 0 else len + i)
    else if i > len then len
    else i
  }

  /** `s.slice(start, end)`, including negative indices counted from the end. */
  function Slice(s: string, start: int, end: int): (r: string)
    ensures |r| <= |s|
    ensures 0 <= start <= end <= |s| ==> r == s[start..end]
    ensures 0 <= start <= |s| <= end ==> r == s[start..]
    ensures 0 <= end <= start ==> r == ""
  {
    var from, to := ClampIndex(start, |s|), ClampIndex(end, |s|);
    if from < to then s[from..to] else ""
  }

  /** The file name of a path: `path.slice(path.lastIndexOf("/") + 1)`. */
  function Basename(path: string): (name: string)
    ensures '/' !in name
    ensures |name| <= |path| && path[|path| - |name|..] == name
    ensures '/' !in path ==> name == path
    ensures '/' in path ==> |name| < |path| && path[|path| - |name| - 1] == '/'
  {
    path[LastIndexOf(path, '/') + 1..]
  }

  /** `s.split(d)` for a non-empty separator. */
  function Split(s: string, d: string): (pieces: seq<string>)
    requires |d| > 0
    decreases |s|
    ensures |pieces| >= 1
  {
    var i := IndexOf(s, d);
    if i < 0 then [s] else [s[..i]] + Split(s[i + |d|..], d)
  }

  /** `parts.join(d)`. */
  function Join(parts: seq<string>, d: string): string {
    if |parts| == 0 then ""
    else if |parts| == 1 then parts[0]
    else parts[0] + d + Join(parts[1..], d)
  }

  /** `s.replace(pattern, replacement)` with a string pattern: only the first occurrence is replaced. */
  function ReplaceFirst(s: string, pattern: string, replacement: string): (r: string)
    ensures !Includes(s, pattern) ==> r == s
    ensures Includes(s, pattern) ==>
      exists i: nat :: OccursAt(s, pattern, i) &&
        (forall j: nat :: j < i ==> !OccursAt(s, pattern, j)) &&
        r == s[..i] + replacement + s[i + |pattern|..]
  {
    var i := IndexOf(s, pattern);
    if i < 0 then s else s[..i] + replacement + s[i + |pattern|..]
  }

  predicate IsDigit(c: char) {
    '0' <= c <= '9'
  }

  predicate AllDigits(s: string) {
    forall i :: 0 <= i < |s| ==> IsDigit(s[i])
  }

  /** The value of a string of decimal digits. */
  function DigitsValue(s: string): nat
    requires AllDigits(s)
  {
    if |s| == 0 then 0
    else DigitsValue(s[..|s| - 1]) * 10 + (s[|s| - 1] as int - '0' as int)
  }

  function DigitChar(d: nat): char
    requires d < 10
  {
    ('0' as int + d) as char
  }

  /** The decimal digits of `n`, without leading zeros. */
  function NatToString(n: nat): (s: string)
    ensures |s| >= 1 && AllDigits(s)
    ensures n >= 10 ==> s[0] != '0'
  {
    if n < 10 then [DigitChar(n)] else NatToString(n / 10) + [DigitChar(n % 10)]
  }

  /** `n.toString()` for an integer `n`. */
  function IntToString(n: int): string {
    if n < 0 then "-" + NatToString(-n) else NatToString(n)
  }

  /** The white space and line terminators `Number(...)` ignores around its
      argument: tab, line feed, vertical tab, form feed, carriage return, space,
      no-break space, the byte order mark, the line and paragraph separators and
      the other Unicode space separators. */
  predicate IsSpace(c: char) {
    c == '\t' || c == '\n' || c == '\U{000B}' || c == '\U{000C}' || c == '\r' || c == ' ' ||
    c == '\U{00A0}' || c == '\U{FEFF}' || c == '\U{1680}' || ('\U{2000}' <= c <= '\U{200A}') ||
    c == '\U{2028}' || c == '\U{2029}' || c == '\U{202F}' || c == '\U{205F}' || c == '\U{3000}'
  }

  function TrimStart(s: string): string {
    if |s| > 0 && IsSpace(s[0]) then TrimStart(s[1..]) else s
  }

  function TrimEnd(s: string): string {
    if |s| > 0 && IsSpace(s[|s| - 1]) then TrimEnd(s[..|s| - 1]) else s
  }

  /** The value of an ASCII letter or digit as a digit of a radix up to 36, or -1. */
  function RadixDigitValue(c: char): int {
    if '0' <= c <= '9' then c as int - '0' as int
    else if 'a' <= c <= 'z' then c as int - 'a' as int + 10
    else if 'A' <= c <= 'Z' then c as int - 'A' as int + 10
    else -1
  }

  predicate AllRadixDigits(s: string, radix: nat) {
    forall i :: 0 <= i < |s| ==> 0 <= RadixDigitValue(s[i]) < radix
  }

  /** The value of a string of digits in the given radix. */
  function RadixValue(s: string, radix: nat): nat
    requires AllRadixDigits(s, radix)
  {
    if |s| == 0 then 0
    else RadixValue(s[..|s| - 1], radix) * radix + RadixDigitValue(s[|s| - 1])
  }

  /** The radix a `0x`, `0o` or `0b` prefix announces (either case), or 0. */
  function RadixOf(c: char): nat {
    if c == 'x' || c == 'X' then 16
    else if c == 'o' || c == 'O' then 8
    else if c == 'b' || c == 'B' then 2
    else 0
  }

  /** `Number(s)` restricted to the integers it can denote; `None` stands for `NaN`,
      for the infinities, which the callers drop alike, and for fractional text
      such as ".5", which the callers never pass.
      A blank string is 0; a sign may precede decimal digits; an unsigned `0x`,
      `0o` or `0b` prefix introduces hexadecimal, octal or binary digits. */
  function ParseNumber(s: string): (r: Option<int>)
    ensures TrimEnd(TrimStart(s)) == "" ==> r == Some(0)
    ensures AllDigits(s) ==> r == Some(DigitsValue(s))
    ensures |s| > 1 && s[0] == '-' && AllDigits(s[1..]) ==> r == Some(0 - DigitsValue(s[1..]))
    ensures |s| > 0 && !IsSpace(s[0]) && !IsDigit(s[0]) && s[0] != '+' && s[0] != '-' && s[0] != '.' ==> r.None?
  {
    if |s| > 0 && !IsSpace(s[0]) then
      TrimStartNoSpace(s);
      TrimEndFirst(s);
      NumberOfTrimmed(TrimEnd(TrimStart(s)))
    else NumberOfTrimmed(TrimEnd(TrimStart(s)))
  }

  /** The number denoted by text with no white space around it. */
  function NumberOfTrimmed(t: string): Option<int> {
    if t == "" then Some(0)
    else if t[0] == '-' && |t| > 1 && AllDigits(t[1..]) then Some(0 - DigitsValue(t[1..]))
    else if t[0] == '+' && |t| > 1 && AllDigits(t[1..]) then Some(DigitsValue(t[1..]))
    else if AllDigits(t) then Some(DigitsValue(t))
    else if |t| > 2 && t[0] == '0' && RadixOf(t[1]) > 0 && AllRadixDigits(t[2..], RadixOf(t[1])) then
      Some(RadixValue(t[2..], RadixOf(t[1])))
    else None
  }

  // ---------------------------------------------------------------------------
  // Lemmas

  /** `indexOf` finds exactly the first occurrence. */
  lemma IndexOfIsFirst(s: string, d: string, k: nat)
    requires OccursAt(s, d, k)
    requires forall i: nat :: i < k ==> !OccursAt(s, d, i)
    ensures IndexOf(s, d) == k
  {
  }

  /** A window that lies inside a prefix is seen the same way in the whole string. */
  lemma OccursAtPrefix(p: string, q: string, d: string, i: nat)
    requires i + |d| <= |p|
    ensures OccursAt(p + q, d, i) <==> OccursAt(p, d, i)
  {
    assert (p + q)[i..i + |d|] == p[i..i + |d|];
  }

  /** No occurrence of a separator can start at a character other than its first. */
  lemma NoOccurrenceWithoutFirstChar(s: string, d: string)
    requires |d| > 0 && d[0] !in s
    ensures !Includes(s, d)
  {
    forall i: nat | i + |d| <= |s|
      ensures !OccursAt(s, d, i)
    {
      assert s[i..i + |d|][0] == s[i];
    }
  }

  /** A piece free of the separator's first character is followed, in `x + d + rest`,
      by exactly the separator. */
  lemma IndexOfAfterPiece(x: string, d: string, rest: string)
    requires |d| > 0 && d[0] !in x
    ensures IndexOf(x + d + rest, d) == |x|
  {
    var s := x + d + rest;
    assert s[|x|..|x| + |d|] == d;
    forall i: nat | i < |x|
      ensures !OccursAt(s, d, i)
    {
      assert s[i] == x[i];
      assert s[i..i + |d|][0] == s[i];
    }
    IndexOfIsFirst(s, d, |x|);
  }

  /** One step of `split`: the piece before the first separator, then the rest. */
  lemma SplitStep(s: string, d: string)
    requires |d| > 0 && IndexOf(s, d) >= 0
    ensures var i := IndexOf(s, d);
      Split(s, d) == [s[..i]] + Split(s[i + |d|..], d) &&
      s == s[..i] + d + s[i + |d|..]
  {
    var i := IndexOf(s, d);
    assert s[i..i + |d|] == d;
    assert s == s[..i] + s[i..i + |d|] + s[i + |d|..];
  }

  /** Joining a part in front of at least one more part puts a separator between. */
  lemma JoinCons(a: string, parts: seq<string>, d: string)
    requires |parts| >= 1
    ensures Join([a] + parts, d) == a + d + Join(parts, d)
  {
    assert ([a] + parts)[1..] == parts;
  }

  /** Joining the pieces of a split gives back the string. */
  lemma {:induction false} JoinSplit(s: string, d: string)
    requires |d| > 0
    ensures Join(Split(s, d), d) == s
    decreases |s|
  {
    var i := IndexOf(s, d);
    if i >= 0 {
      var rest := s[i + |d|..];
      JoinSplit(rest, d);
      SplitStep(s, d);
      JoinCons(s[..i], Split(rest, d), d);
    }
  }

  /** No piece of a split contains the separator. */
  lemma {:induction false} SplitPiecesFree(s: string, d: string)
    requires |d| > 0
    ensures forall k :: 0 <= k < |Split(s, d)| ==> !Includes(Split(s, d)[k], d)
    decreases |s|
  {
    var i := IndexOf(s, d);
    if i >= 0 {
      var rest := s[i + |d|..];
      SplitPiecesFree(rest, d);
      var head := s[..i];
      assert head + s[i..] == s;
      forall j: nat | j + |d| <= |head|
        ensures !OccursAt(head, d, j)
      {
        OccursAtPrefix(head, s[i..], d, j);
      }
    }
  }

  /** Splitting a join gives back the parts when no part holds the separator's
      first character. */
  lemma {:induction false} SplitJoin(parts: seq<string>, d: string)
    requires |d| > 0 && |parts| >= 1
    requires forall k :: 0 <= k < |parts| ==> d[0] !in parts[k]
    ensures Split(Join(parts, d), d) == parts
  {
    if |parts| == 1 {
      NoOccurrenceWithoutFirstChar(parts[0], d);
    } else {
      var rest := Join(parts[1..], d);
      var s := parts[0] + d + rest;
      assert parts == [parts[0]] + parts[1..];
      JoinCons(parts[0], parts[1..], d);
      IndexOfAfterPiece(parts[0], d, rest);
      SplitStep(s, d);
      assert s[..|parts[0]|] == parts[0];
      assert s[|parts[0]| + |d|..] == rest;
      SplitJoin(parts[1..], d);
    }
  }

  /** A character found in neither the parts nor the separator is not in their join. */
  lemma {:induction false} JoinFree(parts: seq<string>, d: string, c: char)
    requires c !in d
    requires forall k :: 0 <= k < |parts| ==> c !in parts[k]
    ensures c !in Join(parts, d)
  {
    if |parts| > 1 {
      JoinFree(parts[1..], d, c);
    }
  }

  lemma {:induction false} DigitsValueOfNatToString(n: nat)
    ensures DigitsValue(NatToString(n)) == n
  {
    if n >= 10 {
      DigitsValueOfNatToString(n / 10);
      var s := NatToString(n);
      assert s[..|s| - 1] == NatToString(n / 10);
    }
  }

  lemma TrimStartNoSpace(s: string)
    requires |s| > 0 && !IsSpace(s[0])
    ensures TrimStart(s) == s
  {
  }

  /** `Number("0x10")` is 16, `Number("0b11")` is 3, and white space beyond ASCII
      around digits is ignored. */
  lemma NumberForms()
    ensures ParseNumber("0x10") == Some(16)
    ensures ParseNumber("0b11") == Some(3)
    ensures ParseNumber("\U{00A0}7\U{000B}") == Some(7)
  {
    var h := "0x10";
    assert RadixValue(h[2..], 16) == 16 by {
      assert h[2..][..1] == "1";
    }
    var b := "0b11";
    assert RadixValue(b[2..], 2) == 3 by {
      assert b[2..] == "11" && "11"[..1] == "1";
      assert RadixValue("1", 2) == 1 by {
        assert "1"[..0] == "";
      }
    }
    var w := "\U{00A0}7\U{000B}";
    assert TrimStart(w) == w[1..];
    assert TrimEnd(w[1..]) == "7" by {
      assert w[1..][..1] == "7";
    }
  }

  /** Trimming the end keeps a first character that is not white space. */
  lemma {:induction false} TrimEndFirst(s: string)
    requires |s| > 0 && !IsSpace(s[0])
    ensures |TrimEnd(s)| > 0 && TrimEnd(s)[0] == s[0]
  {
    if IsSpace(s[|s| - 1]) {
      TrimEndFirst(s[..|s| - 1]);
    }
  }

  lemma TrimEndNoSpace(s: string)
    requires |s| > 0 && !IsSpace(s[|s| - 1])
    ensures TrimEnd(s) == s
  {
  }

  /** `Number(n.toString()) === n` for every integer `n`. */
  lemma ParseIntToString(n: int)
    ensures ParseNumber(IntToString(n)) == Some(n)
  {
    var s := IntToString(n);
    var digits := NatToString(if n < 0 then -n else n);
    DigitsValueOfNatToString(if n < 0 then -n else n);
    assert s[|s| - 1] == digits[|digits| - 1];
    TrimStartNoSpace(s);
    TrimEndNoSpace(s);
    if n < 0 {
      assert s[1..] == digits;
    } else {
      assert s == digits;
    }
  }

  /** `toString()` of an integer never holds a dot, a slash or a star. */
  lemma IntToStringChars(n: int)
    ensures '.' !in IntToString(n) && '/' !in IntToString(n) && '*' !in IntToString(n)
  {
    var digits := NatToString(if n < 0 then -n else n);
    assert forall i :: 0 <= i < |digits| ==> IsDigit(digits[i]);
  }
}
