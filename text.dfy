/** String operations the backend (Python) and the front end (JavaScript)
    rely on: whitespace stripping, substring search, splitting on a
    character or on runs of whitespace, joining, and decimal rendering of
    integers. Strings are sequences of Unicode scalar values. */
module Text {

  /** The characters Python's `str.isspace()` accepts; the same set is
      matched by `\s` in a `re` pattern over `str`. */
  predicate IsSpace(c: char) {
    || c == ' ' || c == '\t' || c == '\n' || c == '\r' || c == '\U{0B}' || c == '\U{0C}'
    || ('\U{1C}' <= c <= '\U{1F}')
    || c == '\U{85}' || c == '\U{A0}' || c == '\U{1680}'
    || ('\U{2000}' <= c <= '\U{200A}')
    || c == '\U{2028}' || c == '\U{2029}' || c == '\U{202F}' || c == '\U{205F}' || c == '\U{3000}'
  }

  /** Leading whitespace removed. */
  function TrimStart(s: string): (r: string)
    ensures |r| <= |s| && r == s[|s| - |r|..]
    decreases |s|
  {
    if |s| > 0 && IsSpace(s[0]) then TrimStart(s[1..]) else s
  }

  /** What `TrimStart` removes is whitespace, and what it keeps does not
      start with whitespace. */
  lemma {:induction false} TrimStartRemovesSpace(s: string)
    ensures forall i :: 0 <= i < |s| - |TrimStart(s)| ==> IsSpace(s[i])
    ensures TrimStart(s) != [] ==> !IsSpace(TrimStart(s)[0])
    decreases |s|
  {
    if |s| > 0 && IsSpace(s[0]) {
      var t := s[1..];
      TrimStartRemovesSpace(t);
      assert TrimStart(s) == TrimStart(t);
      forall i | 0 <= i < |s| - |TrimStart(s)|
        ensures IsSpace(s[i])
      {
        if i > 0 {
          assert s[i] == t[i - 1];
        }
      }
    }
  }

  /** Trailing whitespace removed. */
  function TrimEnd(s: string): (r: string)
    ensures |r| <= |s| && r == s[..|r|]
    decreases |s|
  {
    if |s| > 0 && IsSpace(s[|s| - 1]) then TrimEnd(s[..|s| - 1]) else s
  }

  /** What `TrimEnd` removes is whitespace, and what it keeps does not end
      with whitespace. */
  lemma {:induction false} TrimEndRemovesSpace(s: string)
    ensures forall i :: |TrimEnd(s)| <= i < |s| ==> IsSpace(s[i])
    ensures TrimEnd(s) != [] ==> !IsSpace(TrimEnd(s)[|TrimEnd(s)| - 1])
    decreases |s|
  {
    if |s| > 0 && IsSpace(s[|s| - 1]) {
      TrimEndRemovesSpace(s[..|s| - 1]);
    }
  }

  /** Python's `str.strip()` with no argument. */
  function Strip(s: string): (r: string)
    ensures |r| <= |s|
  {
    TrimEnd(TrimStart(s))
  }

  /** `Strip` leaves neither leading nor trailing whitespace, and leaves
      nothing exactly when the string is all whitespace. */
  lemma StripRemovesSpace(s: string)
    ensures Strip(s) != [] ==> !IsSpace(Strip(s)[0]) && !IsSpace(Strip(s)[|Strip(s)| - 1])
    ensures Strip(s) == [] <==> forall i :: 0 <= i < |s| ==> IsSpace(s[i])
  {
    var t := TrimStart(s);
    TrimStartRemovesSpace(s);
    TrimEndRemovesSpace(t);
    var r := TrimEnd(t);
    if r == [] {
      assert t == [];
    } else {
      assert r[0] == t[0];
      assert !IsSpace(s[|s| - |t|]);
    }
  }

  /** Python's `s.rstrip(c)` for a single character `c`. */
  function TrimEndChar(s: string, c: char): (r: string)
    ensures |r| <= |s| && r == s[..|r|]
    ensures forall i :: |r| <= i < |s| ==> s[i] == c
    ensures r != [] ==> r[|r| - 1] != c
    decreases |s|
  {
    if |s| > 0 && s[|s| - 1] == c then TrimEndChar(s[..|s| - 1], c) else s
  }

  predicate StartsWith(s: string, prefix: string) {
    |prefix| <= |s| && s[..|prefix|] == prefix
  }

  /** Whether `sub` occurs in `s` at position `i`. */
  predicate OccursAt(s: string, sub: string, i: int) {
    0 <= i <= |s| - |sub| && s[i..i + |sub|] == sub
  }

  /** Whether `sub` occurs somewhere in `s` (Python's `sub in s`). */
  function Contains(s: string, sub: string): (r: bool)
    ensures r <==> exists i :: OccursAt(s, sub, i)
    decreases |s|
  {
    if |s| < |sub| then false
    else if s[..|sub|] == sub then assert OccursAt(s, sub, 0); true
    else
      var r := Contains(s[1..], sub);
      assert r ==> exists i :: OccursAt(s, sub, i) by {
        if r {
          var j :| OccursAt(s[1..], sub, j);
          assert s[j + 1..j + 1 + |sub|] == s[1..][j..j + |sub|];
          assert OccursAt(s, sub, j + 1);
        }
      }
      assert (exists i :: OccursAt(s, sub, i)) ==> r by {
        if exists i :: OccursAt(s, sub, i) {
          var i :| OccursAt(s, sub, i);
          assert i != 0;
          assert s[1..][i - 1..i - 1 + |sub|] == s[i..i + |sub|];
          assert OccursAt(s[1..], sub, i - 1);
        }
      }
      r
  }

  /** The first position of `c` in `s`. */
  function IndexOf(s: string, c: char): (i: nat)
    requires c in s
    ensures i < |s| && s[i] == c && c !in s[..i]
  {
    if s[0] == c then 0 else 1 + IndexOf(s[1..], c)
  }

  /** The parts joined, `sep` between neighbours (Python's `sep.join`,
      JavaScript's `Array.prototype.join`). */
  function Join(parts: seq<string>, sep: string): string {
    if |parts| == 0 then ""
    else if |parts| == 1 then parts[0]
    else parts[0] + sep + Join(parts[1..], sep)
  }

  /** The last part of a join is a suffix of the joined string; with more
      than one part it is preceded by the separator. */
  lemma {:induction false} JoinLast(parts: seq<string>, sep: string)
    requires |parts| > 0
    ensures var j := Join(parts, sep); var last := parts[|parts| - 1];
      && |last| <= |j| && j[|j| - |last|..] == last
      && (|parts| > 1 ==> |last| + |sep| <= |j| && j[|j| - |last| - |sep|..|j| - |last|] == sep)
    decreases |parts|
  {
    if |parts| > 1 {
      JoinLast(parts[1..], sep);
      var rest := Join(parts[1..], sep);
      assert Join(parts, sep) == parts[0] + sep + rest;
      if |parts| > 2 {
      } else {
        assert rest == parts[1];
      }
    }
  }

  /** Python's `s.split(c)`: the pieces between occurrences of `c`; joining
      them with `c` gives `s` back. */
  function SplitOn(s: string, c: char): (parts: seq<string>)
    ensures |parts| > 0
    ensures forall k :: 0 <= k < |parts| ==> c !in parts[k]
    ensures Join(parts, [c]) == s
    decreases |s|
  {
    if c !in s then [s]
    else
      var i := IndexOf(s, c);
      var rest := SplitOn(s[i + 1..], c);
      assert s == s[..i] + [c] + s[i + 1..];
      [s[..i]] + rest
  }

  /** The number of occurrences of `c` in `s`. */
  function CountChar(s: string, c: char): nat
    decreases |s|
  {
    if |s| == 0 then 0 else (if s[0] == c then 1 else 0) + CountChar(s[1..], c)
  }

  lemma {:induction false} CountCharAppend(a: string, b: string, c: char)
    ensures CountChar(a + b, c) == CountChar(a, c) + CountChar(b, c)
    decreases |a|
  {
    if |a| > 0 {
      assert (a + b)[0] == a[0] && (a + b)[1..] == a[1..] + b;
      CountCharAppend(a[1..], b, c);
    } else {
      assert a + b == b;
    }
  }

  lemma {:induction false} CountCharAbsent(s: string, c: char)
    requires c !in s
    ensures CountChar(s, c) == 0
    decreases |s|
  {
    if |s| > 0 {
      CountCharAbsent(s[1..], c);
    }
  }

  /** `s.split(c)` has one piece more than `s` has occurrences of `c`. */
  lemma {:induction false} SplitOnCount(s: string, c: char)
    ensures |SplitOn(s, c)| == CountChar(s, c) + 1
    decreases |s|
  {
    if c !in s {
      CountCharAbsent(s, c);
    } else {
      var i := IndexOf(s, c);
      SplitOnCount(s[i + 1..], c);
      assert s == s[..i] + ([c] + s[i + 1..]);
      CountCharAppend(s[..i], [c] + s[i + 1..], c);
      CountCharAppend([c], s[i + 1..], c);
      CountCharAbsent(s[..i], c);
      assert CountChar([c], c) == 1 by {
        assert [c][1..] == [];
      }
    }
  }

  /** `Strip` keeps a contiguous piece of its argument, so every character
      it keeps occurs in the argument. */
  lemma StripKeepsChars(s: string)
    ensures forall k :: 0 <= k < |Strip(s)| ==> Strip(s)[k] in s
  {
    var t := TrimStart(s);
    var r := TrimEnd(t);
    forall k | 0 <= k < |r| ensures r[k] in s {
      assert r[k] == t[k] == s[|s| - |t| + k];
    }
  }

  /** A piece without `c` keeps none once stripped, and has no whitespace
      left at either end. */
  lemma StrippedPiece(x: string, c: char)
    requires c !in x
    ensures c !in Strip(x)
    ensures Strip(x) != "" ==> !IsSpace(Strip(x)[0]) && !IsSpace(Strip(x)[|Strip(x)| - 1])
  {
    StripKeepsChars(x);
    StripRemovesSpace(x);
  }

  /** Whether position `i` starts a run of at least two whitespace characters. */
  predicate RunAt(s: string, i: int) {
    0 <= i && i + 1 < |s| && IsSpace(s[i]) && IsSpace(s[i + 1])
  }

  /** The first position from `from` on that starts a run of two or more
      whitespace characters, or `|s|` when there is none. */
  function FirstRun(s: string, from: nat): (i: nat)
    requires from <= |s|
    ensures from <= i <= |s|
    decreases |s| - from
  {
    if from == |s| then |s|
    else if RunAt(s, from) then from
    else FirstRun(s, from + 1)
  }

  lemma {:induction false} FirstRunIsFirst(s: string, from: nat)
    requires from <= |s|
    ensures FirstRun(s, from) < |s| ==> RunAt(s, FirstRun(s, from))
    ensures forall j :: from <= j < FirstRun(s, from) ==> !RunAt(s, j)
    decreases |s| - from
  {
    if from < |s| && !RunAt(s, from) {
      FirstRunIsFirst(s, from + 1);
    }
  }

  /** The end of the whitespace run starting at `i`. */
  function RunEnd(s: string, i: nat): (j: nat)
    requires i <= |s|
    ensures i <= j <= |s|
    decreases |s| - i
  {
    if i < |s| && IsSpace(s[i]) then RunEnd(s, i + 1) else i
  }

  lemma {:induction false} RunEndIsMaximal(s: string, i: nat)
    requires i <= |s|
    ensures forall k :: i <= k < RunEnd(s, i) ==> IsSpace(s[k])
    ensures RunEnd(s, i) < |s| ==> !IsSpace(s[RunEnd(s, i)])
    decreases |s| - i
  {
    if i < |s| && IsSpace(s[i]) {
      RunEndIsMaximal(s, i + 1);
    }
  }

  /** Python's `re.split(r'\s{2,}', s)`: the pieces between maximal runs of
      two or more whitespace characters. */
  function SplitOnSpaceRuns(s: string): (parts: seq<string>)
    ensures |parts| > 0
    decreases |s|
  {
    var i := FirstRun(s, 0);
    if i == |s| then [s]
    else
      var j := RunEnd(s, i);
      assert i + 1 < |s| && j >= i + 2 by {
        FirstRunIsFirst(s, 0);
        RunEndIsMaximal(s, i);
      }
      [s[..i]] + SplitOnSpaceRuns(s[j..])
  }

  /** No piece holds a run of two whitespace characters. */
  lemma {:induction false} SplitOnSpaceRunsHasNoRuns(s: string)
    ensures forall k, j :: 0 <= k < |SplitOnSpaceRuns(s)| ==> !RunAt(SplitOnSpaceRuns(s)[k], j)
    decreases |s|
  {
    var i := FirstRun(s, 0);
    FirstRunIsFirst(s, 0);
    if i < |s| {
      RunEndIsMaximal(s, i);
      var j := RunEnd(s, i);
      SplitOnSpaceRunsHasNoRuns(s[j..]);
      assert forall k :: 0 <= k < i ==> !RunAt(s[..i], k) by {
        forall k | 0 <= k < i ensures !RunAt(s[..i], k) {
          assert !RunAt(s, k);
        }
      }
      var parts := SplitOnSpaceRuns(s);
      assert parts == [s[..i]] + SplitOnSpaceRuns(s[j..]);
      forall k, m | 0 <= k < |parts| ensures !RunAt(parts[k], m) {
        if k > 0 {
          assert parts[k] == SplitOnSpaceRuns(s[j..])[k - 1];
        }
      }
    }
  }

  /** The maximal whitespace runs `re.split(r'\s{2,}', s)` splits at, in
      order: the separators between neighbouring pieces. */
  function SpaceRunSeparators(s: string): (seps: seq<string>)
    decreases |s|
  {
    var i := FirstRun(s, 0);
    if i == |s| then []
    else
      var j := RunEnd(s, i);
      assert i + 1 < |s| && j >= i + 2 by {
        FirstRunIsFirst(s, 0);
        RunEndIsMaximal(s, i);
      }
      [s[i..j]] + SpaceRunSeparators(s[j..])
  }

  /** The pieces with the separators between them, in turn. */
  function Interleave(parts: seq<string>, seps: seq<string>): string
    requires |parts| == |seps| + 1
    decreases |seps|
  {
    if |seps| == 0 then parts[0] else parts[0] + seps[0] + Interleave(parts[1..], seps[1..])
  }

  /** Both functions take one step at a time: the piece before the first
      run and the run itself, then the same on what follows the run. */
  lemma SpaceRunStep(s: string)
    requires FirstRun(s, 0) < |s|
    ensures var i := FirstRun(s, 0); var j := RunEnd(s, i);
      && i + 2 <= j
      && (forall m :: i <= m < j ==> IsSpace(s[m]))
      && (i > 0 ==> !IsSpace(s[i - 1]))
      && (j < |s| ==> !IsSpace(s[j]))
      && SplitOnSpaceRuns(s) == [s[..i]] + SplitOnSpaceRuns(s[j..])
      && SpaceRunSeparators(s) == [s[i..j]] + SpaceRunSeparators(s[j..])
  {
    var i := FirstRun(s, 0);
    FirstRunIsFirst(s, 0);
    RunEndIsMaximal(s, i);
    if i > 0 {
      assert !RunAt(s, i - 1);
    }
  }

  /** The pieces of `re.split(r'\s{2,}', s)` and the runs it cuts out,
      in turn, give `s` back. */
  lemma {:induction false} SplitOnSpaceRunsRebuilds(s: string)
    ensures |SplitOnSpaceRuns(s)| == |SpaceRunSeparators(s)| + 1
    ensures Interleave(SplitOnSpaceRuns(s), SpaceRunSeparators(s)) == s
    decreases |s|
  {
    var i := FirstRun(s, 0);
    if i < |s| {
      SpaceRunStep(s);
      var j := RunEnd(s, i);
      var rest := s[j..];
      SplitOnSpaceRunsRebuilds(rest);
      var parts := SplitOnSpaceRuns(s);
      var seps := SpaceRunSeparators(s);
      assert parts[0] == s[..i] && parts[1..] == SplitOnSpaceRuns(rest);
      assert seps[0] == s[i..j] && seps[1..] == SpaceRunSeparators(rest);
      assert s == s[..i] + s[i..j] + rest;
    }
  }

  /** Every run `re.split(r'\s{2,}', s)` cuts out is two or more
      whitespace characters. */
  lemma {:induction false} SpaceRunSeparatorsAreRuns(s: string)
    ensures forall k :: 0 <= k < |SpaceRunSeparators(s)| ==> |SpaceRunSeparators(s)[k]| >= 2
    ensures forall k, m :: 0 <= k < |SpaceRunSeparators(s)| && 0 <= m < |SpaceRunSeparators(s)[k]| ==>
      IsSpace(SpaceRunSeparators(s)[k][m])
    decreases |s|
  {
    var i := FirstRun(s, 0);
    if i < |s| {
      SpaceRunStep(s);
      var j := RunEnd(s, i);
      var rest := s[j..];
      SpaceRunSeparatorsAreRuns(rest);
      var seps := SpaceRunSeparators(s);
      var srest := SpaceRunSeparators(rest);
      forall k | 0 <= k < |seps| ensures |seps[k]| >= 2 && forall m :: 0 <= m < |seps[k]| ==> IsSpace(seps[k][m]) {
        if k == 0 {
          assert seps[k] == s[i..j];
          assert forall m :: 0 <= m < |seps[k]| ==> seps[k][m] == s[i + m];
        } else {
          assert seps[k] == srest[k - 1];
        }
      }
    }
  }

  /** Each run `re.split(r'\s{2,}', s)` cuts out is maximal: a piece that
      follows a separator does not start with whitespace, and a piece that
      precedes one does not end with it. */
  lemma {:induction false} SplitOnSpaceRunsPiecesTrimmed(s: string)
    ensures var parts := SplitOnSpaceRuns(s);
      && (forall k :: 0 < k < |parts| && parts[k] != "" ==> !IsSpace(parts[k][0]))
      && (forall k :: 0 <= k < |parts| - 1 && parts[k] != "" ==> !IsSpace(parts[k][|parts[k]| - 1]))
    decreases |s|
  {
    var i := FirstRun(s, 0);
    if i < |s| {
      SpaceRunStep(s);
      var j := RunEnd(s, i);
      var rest := s[j..];
      SplitOnSpaceRunsPiecesTrimmed(rest);
      var parts := SplitOnSpaceRuns(s);
      var prest := SplitOnSpaceRuns(rest);
      assert parts[0] == s[..i] && parts[1..] == prest;
      assert prest[0] == rest[..FirstRun(rest, 0)];
      forall k | 0 < k < |parts| && parts[k] != "" ensures !IsSpace(parts[k][0]) {
        assert parts[k] == prest[k - 1];
        if k == 1 {
          assert parts[k][0] == s[j];
        }
      }
      forall k | 0 <= k < |parts| - 1 && parts[k] != "" ensures !IsSpace(parts[k][|parts[k]| - 1]) {
        if k > 0 {
          assert parts[k] == prest[k - 1];
        }
      }
    }
  }

  function DigitChar(d: nat): (c: char)
    requires d < 10
    ensures '0' <= c <= '9'
  {
    "0123456789"[d]
  }

  predicate IsDigits(s: string) {
    forall i :: 0 <= i < |s| ==> '0' <= s[i] <= '9'
  }

  /** Decimal rendering of a natural number, most significant digit first. */
  function NatToString(n: nat): (s: string)
    ensures |s| > 0 && IsDigits(s)
    ensures (|s| == 1) <==> n < 10
    decreases n
  {
    if n < 10 then [DigitChar(n)] else NatToString(n / 10) + [DigitChar(n % 10)]
  }

  /** Decimal rendering of an integer as Python's `str` and JavaScript's
      template literals produce it: a minus sign for negatives, nothing for
      the others. */
  function IntToString(i: int): (s: string)
    ensures |s| > 0
    ensures s[0] == '-' <==> i < 0
    ensures i >= 0 ==> IsDigits(s)
  {
    if i < 0 then "-" + NatToString(-i) else NatToString(i)
  }

  /** The value of a decimal digit character. */
  function DigitValue(c: char): (d: nat)
    requires '0' <= c <= '9'
    ensures d < 10
  {
    (c as int - '0' as int) as nat
  }

  /** The number a string of decimal digits denotes. */
  function DigitsToNat(s: string): nat
    requires IsDigits(s)
    decreases |s|
  {
    if |s| == 0 then 0 else DigitsToNat(s[..|s| - 1]) * 10 + DigitValue(s[|s| - 1])
  }

  /** Reading a rendered number back gives the number. */
  lemma {:induction false} NatToStringRoundTrip(n: nat)
    ensures DigitsToNat(NatToString(n)) == n
    decreases n
  {
    if n >= 10 {
      NatToStringRoundTrip(n / 10);
      var s := NatToString(n);
      assert s[..|s| - 1] == NatToString(n / 10);
    }
  }

  /** Every part occurs in the joined string. */
  lemma {:induction false} JoinHasEachPart(parts: seq<string>, sep: string)
    ensures forall k :: 0 <= k < |parts| ==> Contains(Join(parts, sep), parts[k])
    decreases |parts|
  {
    if |parts| == 1 {
      assert OccursAt(Join(parts, sep), parts[0], 0);
    } else if |parts| > 1 {
      var rest := Join(parts[1..], sep);
      var j := Join(parts, sep);
      assert j == parts[0] + sep + rest;
      JoinHasEachPart(parts[1..], sep);
      forall k | 0 <= k < |parts|
        ensures Contains(j, parts[k])
      {
        if k == 0 {
          assert j[..|parts[0]|] == parts[0];
          assert OccursAt(j, parts[0], 0);
        } else {
          assert parts[k] == parts[1..][k - 1];
          var i :| OccursAt(rest, parts[k], i);
          var off := |parts[0]| + |sep|;
          assert j[off + i..off + i + |parts[k]|] == rest[i..i + |parts[k]|];
          assert OccursAt(j, parts[k], off + i);
        }
      }
    }
  }
}
