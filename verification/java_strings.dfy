/**
 * The parts of java.lang.String, java.lang.Character and commons-lang StringUtils
 * that the plugin relies on, stated over `seq<char>`.
 */
module JavaStrings {
  import opened Wrappers

  // ---------------------------------------------------------------------------
  // The UTF-16 code units a Java String is made of
  // ---------------------------------------------------------------------------

  /**
   * The UTF-16 code units of one character: the character itself below
   * U+10000, otherwise a high surrogate followed by a low surrogate.
   */
  function CharUnits(c: char): (r: seq<int>)
    ensures |r| == 1 <==> c as int < 0x1_0000
    ensures |r| == 1 || |r| == 2
    ensures forall k :: 0 <= k < |r| ==> 0 <= r[k] < 0x1_0000
  {
    var n := c as int;
    if n < 0x1_0000 then [n]
    else [0xD800 + (n - 0x1_0000) / 0x400, 0xDC00 + (n - 0x1_0000) % 0x400]
  }

  /** The code point that one unit, or a surrogate pair, stands for. */
  function CodePoint(u: seq<int>): int
    requires |u| == 1 || |u| == 2
  {
    if |u| == 1 then u[0] else 0x1_0000 + (u[0] - 0xD800) * 0x400 + (u[1] - 0xDC00)
  }

  predicate HighSurrogate(unit: int)
  {
    0xD800 <= unit < 0xDC00
  }

  /**
   * Decoding inverts the encoding of a character, and the first unit tells
   * how many units the character takes: a high surrogate starts a pair, and no
   * character below U+10000 is itself a surrogate.
   */
  lemma CharUnitsDecode(c: char)
    ensures CodePoint(CharUnits(c)) == c as int
    ensures HighSurrogate(CharUnits(c)[0]) <==> |CharUnits(c)| == 2
  {
  }

  /** A character from U+10000 on is a high surrogate followed by a low one. */
  lemma SurrogatePair(c: char)
    requires 0x1_0000 <= c as int
    ensures |CharUnits(c)| == 2
    ensures HighSurrogate(CharUnits(c)[0]) && 0xDC00 <= CharUnits(c)[1] < 0xE000
    ensures CodePoint(CharUnits(c)) == c as int
  {
  }

  /** The UTF-16 encoding of a string, the sequence of units Java stores. */
  function Utf16(s: string): (r: seq<int>)
    ensures |s| <= |r| <= 2 * |s|
    ensures forall k :: 0 <= k < |r| ==> 0 <= r[k] < 0x1_0000
  {
    if s == [] then [] else CharUnits(s[0]) + Utf16(s[1..])
  }

  /** Distinct strings have distinct encodings. */
  lemma {:induction false} Utf16Injective(a: string, b: string)
    requires Utf16(a) == Utf16(b)
    ensures a == b
  {
    if a != [] && b != [] {
      var ua, ub, u := CharUnits(a[0]), CharUnits(b[0]), Utf16(a);
      CharUnitsDecode(a[0]);
      CharUnitsDecode(b[0]);
      assert u == ua + Utf16(a[1..]) && u == ub + Utf16(b[1..]);
      assert ua[0] == u[0] == ub[0];
      assert |ua| == |ub|;
      assert ua == u[..|ua|] && ub == u[..|ub|];
      assert Utf16(a[1..]) == u[|ua|..] == Utf16(b[1..]);
      Utf16Injective(a[1..], b[1..]);
      assert a == [a[0]] + a[1..] && b == [b[0]] + b[1..];
    }
  }

  /** A string of characters below U+0080 takes one unit per character. */
  predicate Ascii(s: string)
  {
    forall i :: 0 <= i < |s| ==> s[i] as int < 0x80
  }

  lemma {:induction false} AsciiUnits(s: string)
    requires Ascii(s)
    ensures |Utf16(s)| == |s|
  {
    if s != [] {
      AsciiUnits(s[1..]);
    }
  }

  // ---------------------------------------------------------------------------
  // String.compareTo and the lexicographic order it induces
  // ---------------------------------------------------------------------------

  /**
   * `compareTo` on code units: the difference of the first pair of differing
   * units, or, when one sequence is a prefix of the other, the difference of
   * the lengths.
   */
  function CompareUnits(a: seq<int>, b: seq<int>): int
  {
    if a == [] || b == [] then |a| - |b|
    else if a[0] != b[0] then a[0] - b[0]
    else CompareUnits(a[1..], b[1..])
  }

  /** Strict lexicographic order on code-unit sequences. */
  predicate LessUnits(a: seq<int>, b: seq<int>)
  {
    if a == [] then b != []
    else if b == [] then false
    else if a[0] != b[0] then a[0] < b[0]
    else LessUnits(a[1..], b[1..])
  }

  lemma {:induction false} CompareUnitsSign(a: seq<int>, b: seq<int>)
    ensures CompareUnits(a, b) == 0 <==> a == b
    ensures CompareUnits(a, b) < 0 <==> LessUnits(a, b)
    ensures CompareUnits(a, b) > 0 <==> LessUnits(b, a)
  {
    if a != [] && b != [] && a[0] == b[0] {
      CompareUnitsSign(a[1..], b[1..]);
      assert a == [a[0]] + a[1..] && b == [b[0]] + b[1..];
    }
  }

  lemma {:induction false} CompareUnitsAntisymmetric(a: seq<int>, b: seq<int>)
    ensures CompareUnits(a, b) == -CompareUnits(b, a)
  {
    if a != [] && b != [] && a[0] == b[0] {
      CompareUnitsAntisymmetric(a[1..], b[1..]);
    }
  }

  lemma {:induction false} LessUnitsIrreflexive(a: seq<int>)
    ensures !LessUnits(a, a)
  {
    if a != [] {
      LessUnitsIrreflexive(a[1..]);
    }
  }

  lemma {:induction false} LessUnitsTransitive(a: seq<int>, b: seq<int>, c: seq<int>)
    requires LessUnits(a, b) && LessUnits(b, c)
    ensures LessUnits(a, c)
  {
    if a != [] && b != [] && c != [] && a[0] == b[0] && b[0] == c[0] {
      LessUnitsTransitive(a[1..], b[1..], c[1..]);
    }
  }

  lemma {:induction false} LessUnitsTotal(a: seq<int>, b: seq<int>)
    requires a != b
    ensures LessUnits(a, b) || LessUnits(b, a)
  {
    if a != [] && b != [] && a[0] == b[0] {
      assert a == [a[0]] + a[1..] && b == [b[0]] + b[1..];
      LessUnitsTotal(a[1..], b[1..]);
    }
  }

  /** The order `compareTo` induces on strings. */
  predicate Less(a: string, b: string)
  {
    LessUnits(Utf16(a), Utf16(b))
  }

  /**
   * `String.compareTo`, which compares UTF-16 code units, not characters: zero
   * exactly on equal strings, negative exactly when `a` comes first in `Less`.
   */
  function Compare(a: string, b: string): (r: int)
    ensures r == 0 <==> a == b
    ensures r < 0 <==> Less(a, b)
    ensures r > 0 <==> Less(b, a)
  {
    CompareUnitsSign(Utf16(a), Utf16(b));
    if Utf16(a) == Utf16(b) then
      Utf16Injective(a, b);
      CompareUnits(Utf16(a), Utf16(b))
    else
      CompareUnits(Utf16(a), Utf16(b))
  }

  /** `Compare` is exactly antisymmetric: swapping the arguments negates the result. */
  lemma CompareAntisymmetric(a: string, b: string)
    ensures Compare(a, b) == -Compare(b, a)
  {
    CompareUnitsAntisymmetric(Utf16(a), Utf16(b));
  }

  lemma LessIrreflexive(a: string)
    ensures !Less(a, a)
  {
    LessUnitsIrreflexive(Utf16(a));
  }

  lemma LessTransitive(a: string, b: string, c: string)
    requires Less(a, b) && Less(b, c)
    ensures Less(a, c)
  {
    LessUnitsTransitive(Utf16(a), Utf16(b), Utf16(c));
  }

  lemma LessTotal(a: string, b: string)
    requires a != b
    ensures Less(a, b) || Less(b, a)
  {
    if Utf16(a) == Utf16(b) {
      Utf16Injective(a, b);
    }
    LessUnitsTotal(Utf16(a), Utf16(b));
  }

  /** `Compare` is transitive on its sign, as `Comparable` demands. */
  lemma CompareTransitive(a: string, b: string, c: string)
    requires Compare(a, b) < 0 && Compare(b, c) < 0
    ensures Compare(a, c) < 0
  {
    LessTransitive(a, b, c);
  }

  /**
   * The unit order is not the order of code points: a character above U+FFFF
   * starts with a surrogate (U+D800..U+DBFF) and so sorts before U+E000..U+FFFF.
   */
  lemma SupplementarySortsBeforeHighBmp(a: char, b: char)
    requires a as int >= 0x1_0000 && b as int >= 0xE000 && b as int < 0x1_0000
    ensures Less([a], [b]) && Compare([a], [b]) < 0
  {
    assert Utf16([a]) == CharUnits(a) && Utf16([b]) == CharUnits(b);
  }

  // ---------------------------------------------------------------------------
  // Prefixes, suffixes, occurrences
  // ---------------------------------------------------------------------------

  predicate StartsWith(s: string, p: string)
  {
    |p| <= |s| && s[..|p|] == p
  }

  predicate EndsWith(s: string, p: string)
  {
    |p| <= |s| && s[|s| - |p|..] == p
  }

  /** `sub` occurs in `s` starting at index `i`. */
  predicate OccursAt(s: string, sub: string, i: int)
  {
    0 <= i && i + |sub| <= |s| && s[i..i + |sub|] == sub
  }

  /** `String.contains`, scanning from the left. */
  predicate Contains(s: string, sub: string)
    decreases |s|
  {
    StartsWith(s, sub) || (s != [] && Contains(s[1..], sub))
  }

  /** `Contains` holds exactly when the substring occurs at some index. */
  lemma {:induction false} ContainsIff(s: string, sub: string)
    ensures Contains(s, sub) <==> exists i :: OccursAt(s, sub, i)
    decreases |s|
  {
    if StartsWith(s, sub) {
      assert OccursAt(s, sub, 0);
    } else if s == [] {
    } else {
      ContainsIff(s[1..], sub);
      if Contains(s[1..], sub) {
        var i :| OccursAt(s[1..], sub, i);
        assert s[i + 1..i + 1 + |sub|] == s[1..][i..i + |sub|];
        assert OccursAt(s, sub, i + 1);
      }
      forall i | OccursAt(s, sub, i) ensures Contains(s[1..], sub) {
        assert i != 0;
        assert s[1..][i - 1..i - 1 + |sub|] == s[i..i + |sub|];
        assert OccursAt(s[1..], sub, i - 1);
      }
    }
  }

  /** `String.indexOf`: the first index at which `sep` occurs, if any. */
  function IndexOf(s: string, sep: string): (r: Option<nat>)
    ensures r.Some? ==> OccursAt(s, sep, r.value)
    ensures r.Some? ==> forall j :: 0 <= j < r.value ==> !OccursAt(s, sep, j)
    ensures r.None? ==> forall j :: !OccursAt(s, sep, j)
    decreases |s|
  {
    if StartsWith(s, sep) then Some(0)
    else if s == [] then None
    else
      match IndexOf(s[1..], sep)
      case None =>
        assert forall j :: !OccursAt(s, sep, j) by {
          forall j ensures !OccursAt(s, sep, j) {
            if 0 < j {
              OccursShift(s, sep, j);
            }
          }
        }
        None
      case Some(k) =>
        OccursShift(s, sep, k + 1);
        assert forall j :: 0 <= j < k + 1 ==> !OccursAt(s, sep, j) by {
          forall j | 0 <= j < k + 1 ensures !OccursAt(s, sep, j) {
            if 0 < j {
              OccursShift(s, sep, j);
            }
          }
        }
        Some(k + 1)
  }

  /** An occurrence past the first character is an occurrence in the rest, one place earlier. */
  lemma OccursShift(s: string, sep: string, j: int)
    requires s != [] && 0 < j
    ensures OccursAt(s, sep, j) <==> OccursAt(s[1..], sep, j - 1)
  {
    if j + |sep| <= |s| {
      assert s[1..][j - 1..j - 1 + |sep|] == s[j..j + |sep|];
    }
  }

  // ---------------------------------------------------------------------------
  // String.split(regex) with a literal, non-empty separator and limit 0
  // ---------------------------------------------------------------------------

  /** `StringUtils.join(parts, sep)`: the parts with `sep` between each two. */
  function Join(parts: seq<string>, sep: string): string
    decreases |parts|
  {
    if parts == [] then []
    else if |parts| == 1 then parts[0]
    else parts[0] + sep + Join(parts[1..], sep)
  }

  /** The pieces between successive non-overlapping occurrences, left to right. */
  function Pieces(s: string, sep: string): (ps: seq<string>)
    requires |sep| > 0
    ensures |ps| >= 1
    decreases |s|
  {
    match IndexOf(s, sep)
    case None => [s]
    case Some(i) => [s[..i]] + Pieces(s[i + |sep|..], sep)
  }

  /** None of the pieces holds the separator. */
  lemma {:induction false} PiecesAreFree(s: string, sep: string)
    requires |sep| > 0
    ensures forall k :: 0 <= k < |Pieces(s, sep)| ==> IndexOf(Pieces(s, sep)[k], sep).None?
    decreases |s|
  {
    if IndexOf(s, sep).Some? {
      var i := IndexOf(s, sep).value;
      var rest := s[i + |sep|..];
      PiecesAreFree(rest, sep);
      NothingBeforeFirst(s, sep, i);
      NoOccurrenceNotFound(s[..i], sep);
      var ps := Pieces(s, sep);
      assert ps == [s[..i]] + Pieces(rest, sep);
      assert forall k :: 1 <= k < |ps| ==> ps[k] == Pieces(rest, sep)[k - 1];
    }
  }

  /** Joined by the separator, the pieces give the text back. */
  lemma {:induction false} PiecesRoundTrip(s: string, sep: string)
    requires |sep| > 0
    ensures Join(Pieces(s, sep), sep) == s
    decreases |s|
  {
    if IndexOf(s, sep).Some? {
      var i := IndexOf(s, sep).value;
      var rest := s[i + |sep|..];
      PiecesRoundTrip(rest, sep);
      assert Pieces(s, sep) == [s[..i]] + Pieces(rest, sep);
      JoinCons(s[..i], Pieces(rest, sep), sep);
      SplitAround(s, sep, i);
    }
  }

  /** An occurrence splits the text into what precedes it, the separator, and what follows. */
  lemma SplitAround(s: string, sep: string, i: nat)
    requires OccursAt(s, sep, i)
    ensures s == s[..i] + sep + s[i + |sep|..]
  {
  }

  /** The text before the first occurrence of `sep` holds no occurrence of it. */
  lemma NothingBeforeFirst(s: string, sep: string, i: nat)
    requires |sep| > 0 && IndexOf(s, sep) == Some(i)
    ensures forall j :: !OccursAt(s[..i], sep, j)
  {
    forall j | OccursAt(s[..i], sep, j) ensures false {
      EarlierOccurrence(s, sep, i, j);
    }
  }

  /** An occurrence inside `s[..i]` would be an occurrence of `s` before `i`. */
  lemma EarlierOccurrence(s: string, sep: string, i: nat, j: int)
    requires |sep| > 0 && i <= |s| && OccursAt(s[..i], sep, j)
    ensures OccursAt(s, sep, j) && j < i
  {
    assert s[..i][j..j + |sep|] == s[j..j + |sep|];
  }

  lemma NoOccurrenceNotFound(t: string, sep: string)
    requires forall j :: !OccursAt(t, sep, j)
    ensures IndexOf(t, sep).None?
  {
  }

  lemma JoinCons(p: string, rest: seq<string>, sep: string)
    requires rest != []
    ensures Join([p] + rest, sep) == p + sep + Join(rest, sep)
  {
    assert ([p] + rest)[1..] == rest;
  }

  /** Drops the trailing empty strings, as `split` with limit 0 does. */
  function StripTrailingEmpty(ps: seq<string>): seq<string>
  {
    if ps == [] then []
    else if ps[|ps| - 1] == [] then StripTrailingEmpty(ps[..|ps| - 1])
    else ps
  }

  /**
   * `String.split(sep)` for a separator without regex metacharacters: when the
   * separator does not occur the result is the input alone (even when empty),
   * otherwise the pieces without the trailing empty ones.
   */
  function Split(s: string, sep: string): (r: seq<string>)
    requires |sep| > 0
    ensures forall k :: 0 <= k < |r| ==> IndexOf(r[k], sep).None?
    ensures IndexOf(s, sep).None? ==> r == [s]
    ensures IndexOf(s, sep).Some? ==>
              && |r| <= |Pieces(s, sep)| && r == Pieces(s, sep)[..|r|]
              && (forall k :: |r| <= k < |Pieces(s, sep)| ==> Pieces(s, sep)[k] == [])
              && (r == [] || r[|r| - 1] != [])
  {
    if IndexOf(s, sep).None? then [s]
    else
      var ps := Pieces(s, sep);
      PiecesAreFree(s, sep);
      StripIsPrefix(ps);
      var r := StripTrailingEmpty(ps);
      assert forall k :: 0 <= k < |r| ==> r[k] == ps[k];
      r
  }

  /** `s.split(sep)[k]`, with `None` where Java throws ArrayIndexOutOfBoundsException. */
  function SplitAt(s: string, sep: string, k: nat): Option<string>
    requires |sep| > 0
  {
    var ps := Split(s, sep);
    if k < |ps| then Some(ps[k]) else None
  }

  /** The text up to the first occurrence of `sep`, or all of `s`. */
  function FirstPiece(s: string, sep: string): string
  {
    match IndexOf(s, sep)
    case None => s
    case Some(i) => s[..i]
  }

  /** `s` is zero or more copies of `sep` and nothing else. */
  predicate OnlySeparators(s: string, sep: string)
    requires |sep| > 0
    decreases |s|
  {
    s == [] || (StartsWith(s, sep) && OnlySeparators(s[|sep|..], sep))
  }

  lemma {:induction false} StripIsPrefix(ps: seq<string>)
    ensures |StripTrailingEmpty(ps)| <= |ps|
    ensures StripTrailingEmpty(ps) == ps[..|StripTrailingEmpty(ps)|]
    ensures forall k :: |StripTrailingEmpty(ps)| <= k < |ps| ==> ps[k] == []
    ensures StripTrailingEmpty(ps) == [] || StripTrailingEmpty(ps)[|StripTrailingEmpty(ps)| - 1] != []
  {
    if ps != [] && ps[|ps| - 1] == [] {
      StripIsPrefix(ps[..|ps| - 1]);
    }
  }

  lemma {:induction false} StripCons(p: string, qs: seq<string>)
    ensures StripTrailingEmpty(qs) != [] ==> StripTrailingEmpty([p] + qs) == [p] + StripTrailingEmpty(qs)
    ensures StripTrailingEmpty(qs) == [] ==> StripTrailingEmpty([p] + qs) == StripTrailingEmpty([p])
    decreases |qs|
  {
    if qs != [] && qs[|qs| - 1] == [] {
      assert ([p] + qs)[..|[p] + qs| - 1] == [p] + qs[..|qs| - 1];
      StripCons(p, qs[..|qs| - 1]);
    }
  }

  lemma {:induction false} StripPiecesEmpty(s: string, sep: string)
    requires |sep| > 0
    ensures StripTrailingEmpty(Pieces(s, sep)) == [] <==> OnlySeparators(s, sep)
    decreases |s|
  {
    if s == [] {
      assert Pieces(s, sep) == [s];
    } else if StartsWith(s, sep) {
      assert OccursAt(s, sep, 0);
      assert IndexOf(s, sep) == Some(0);
      var rest := s[|sep|..];
      assert Pieces(s, sep) == [[]] + Pieces(rest, sep);
      StripCons([], Pieces(rest, sep));
      StripPiecesEmpty(rest, sep);
      assert StripTrailingEmpty([[]]) == [];
    } else {
      match IndexOf(s, sep)
      case None =>
        assert Pieces(s, sep) == [s];
      case Some(i) =>
        assert i != 0;
        var rest := s[i + |sep|..];
        StripCons(s[..i], Pieces(rest, sep));
        assert StripTrailingEmpty([s[..i]]) == [s[..i]];
    }
  }

  /** Without an occurrence of `sep`, `split(sep)` is the input alone: there is no element 1. */
  lemma SplitWithoutSeparator(s: string, sep: string)
    requires |sep| > 0 && IndexOf(s, sep) == None
    ensures Split(s, sep) == [s] && SplitAt(s, sep, 1) == None
  {
  }

  /**
   * Element 1 of `split(sep)` is the text between the first and the second
   * occurrence of `sep` (or up to the end when there is no second one); it is
   * missing when everything after the first occurrence is made of further
   * separators only.
   */
  lemma SplitAfterFirst(s: string, sep: string, i: nat)
    requires |sep| > 0 && IndexOf(s, sep) == Some(i)
    ensures OnlySeparators(s[i + |sep|..], sep) ==> SplitAt(s, sep, 1) == None
    ensures !OnlySeparators(s[i + |sep|..], sep) ==>
      SplitAt(s, sep, 1) == Some(FirstPiece(s[i + |sep|..], sep))
  {
    var rest := s[i + |sep|..];
    var qs := Pieces(rest, sep);
    assert Pieces(s, sep) == [s[..i]] + qs;
    assert Split(s, sep) == StripTrailingEmpty([s[..i]] + qs);
    StripCons(s[..i], qs);
    StripPiecesEmpty(rest, sep);
    if OnlySeparators(rest, sep) {
      assert |StripTrailingEmpty([s[..i]])| <= 1 by {
        StripIsPrefix([s[..i]]);
      }
    } else {
      StripIsPrefix(qs);
      assert Split(s, sep) == [s[..i]] + StripTrailingEmpty(qs);
      assert Split(s, sep)[1] == StripTrailingEmpty(qs)[0] == qs[0];
    }
  }

  // ---------------------------------------------------------------------------
  // trim, isWhitespace, isBlank, isEmpty
  // ---------------------------------------------------------------------------

  function TrimStart(s: string): (r: string)
    ensures |r| <= |s|
  {
    if s != [] && s[0] <= ' ' then TrimStart(s[1..]) else s
  }

  function TrimEnd(s: string): string
  {
    if s != [] && s[|s| - 1] <= ' ' then TrimEnd(s[..|s| - 1]) else s
  }

  /** `String.trim`: drops every leading and trailing character up to U+0020. */
  function Trim(s: string): string
  {
    TrimEnd(TrimStart(s))
  }

  /** `TrimStart` gives the longest suffix that does not start with a character up to U+0020. */
  lemma {:induction false} TrimStartSuffix(s: string)
    ensures |TrimStart(s)| <= |s| && TrimStart(s) == s[|s| - |TrimStart(s)|..]
    ensures TrimStart(s) == [] || TrimStart(s)[0] > ' '
    ensures forall k :: 0 <= k < |s| - |TrimStart(s)| ==> s[k] <= ' '
  {
    if s != [] && s[0] <= ' ' {
      TrimStartSuffix(s[1..]);
    }
  }

  /** `TrimEnd` gives the longest prefix that does not end with a character up to U+0020. */
  lemma {:induction false} TrimEndPrefix(s: string)
    ensures |TrimEnd(s)| <= |s| && TrimEnd(s) == s[..|TrimEnd(s)|]
    ensures TrimEnd(s) == [] || TrimEnd(s)[|TrimEnd(s)| - 1] > ' '
    ensures forall k :: |TrimEnd(s)| <= k < |s| ==> s[k] <= ' '
  {
    if s != [] && s[|s| - 1] <= ' ' {
      TrimEndPrefix(s[..|s| - 1]);
    }
  }

  /** How many leading characters `trim` drops. */
  function TrimOffset(s: string): nat
  {
    |s| - |TrimStart(s)|
  }

  /**
   * `trim` keeps the stretch of `s` starting at `TrimOffset(s)`: only
   * characters up to U+0020 surround it, and it neither starts nor ends with one.
   */
  lemma TrimIsStretch(s: string)
    ensures Trim(s) == [] || (Trim(s)[0] > ' ' && Trim(s)[|Trim(s)| - 1] > ' ')
    ensures TrimOffset(s) + |Trim(s)| <= |s| && Trim(s) == s[TrimOffset(s)..TrimOffset(s) + |Trim(s)|]
    ensures forall k :: 0 <= k < TrimOffset(s) ==> s[k] <= ' '
    ensures forall k :: TrimOffset(s) + |Trim(s)| <= k < |s| ==> s[k] <= ' '
  {
    var t := TrimStart(s);
    var r := TrimEnd(t);
    TrimStartSuffix(s);
    TrimEndPrefix(t);
    var o := TrimOffset(s);
    assert t == s[o..];
    assert r == t[..|r|] == s[o..o + |r|];
    assert r == [] || r[0] == t[0];
    forall k | o + |r| <= k < |s|
      ensures s[k] <= ' '
    {
      assert s[k] == t[k - o];
    }
  }

  /** `StringUtils.trimToEmpty`. */
  function TrimToEmpty(s: Option<string>): string
  {
    match s
    case None => ""
    case Some(v) => Trim(v)
  }

  /**
   * `Character.isWhitespace`: the ASCII controls TAB..CR and FS..US, and the
   * Unicode space, line and paragraph separators except the no-break spaces.
   */
  predicate IsWhitespace(c: char)
  {
    var n := c as int;
    (0x09 <= n <= 0x0D) || (0x1C <= n <= 0x20)
    || n == 0x1680 || (0x2000 <= n <= 0x2006) || (0x2008 <= n <= 0x200A)
    || n == 0x2028 || n == 0x2029 || n == 0x205F || n == 0x3000
  }

  /** `StringUtils.isEmpty`: null or of length zero. */
  predicate IsEmpty(s: Option<string>)
  {
    s.None? || s.value == ""
  }

  /** `StringUtils.isBlank`: null, empty, or whitespace only; every empty text is blank. */
  predicate IsBlank(s: Option<string>)
    ensures IsEmpty(s) ==> IsBlank(s)
  {
    s.None? || forall i :: 0 <= i < |s.value| ==> IsWhitespace(s.value[i])
  }

  /** A blank ASCII text trims to nothing: its whitespace is all at most U+0020. */
  lemma BlankAsciiTrimsToEmpty(s: string)
    requires IsBlank(Some(s)) && Ascii(s)
    ensures Trim(s) == []
  {
    TrimIsStretch(s);
  }

  /** Java's string conversion of a possibly-null String (`"null"` for null). */
  function Render(s: Option<string>): string
  {
    match s
    case None => "null"
    case Some(v) => v
  }

  // ---------------------------------------------------------------------------
  // String.hashCode with 32-bit wrap-around
  // ---------------------------------------------------------------------------

  /** Two's-complement truncation of an integer to Java's `int`. */
  function ToInt32(x: int): (r: int)
    ensures -0x8000_0000 <= r < 0x8000_0000
    ensures (r - x) % 0x1_0000_0000 == 0
  {
    (x + 0x8000_0000) % 0x1_0000_0000 - 0x8000_0000
  }

  /** The exact value of the hash polynomial u[0]*31^(n-1) + ... + u[n-1], without wrap-around. */
  function Polynomial(u: seq<int>): int
  {
    if u == [] then 0 else 31 * Polynomial(u[..|u| - 1]) + u[|u| - 1]
  }

  /** h = 31 * h + u over the code units, in `int` arithmetic. */
  function UnitsHash(u: seq<int>): (r: int)
    ensures -0x8000_0000 <= r < 0x8000_0000
    ensures (r - Polynomial(u)) % 0x1_0000_0000 == 0
  {
    if u == [] then 0
    else
      var h := UnitsHash(u[..|u| - 1]);
      HashStep(h, Polynomial(u[..|u| - 1]), u[|u| - 1]);
      ToInt32(31 * h + u[|u| - 1])
  }

  /** One wrapped step h = 31 * h + c keeps the hash congruent to the exact polynomial. */
  lemma HashStep(h: int, p: int, c: int)
    requires (h - p) % 0x1_0000_0000 == 0
    ensures (ToInt32(31 * h + c) - (31 * p + c)) % 0x1_0000_0000 == 0
  {
    var r := ToInt32(31 * h + c);
    var k1 := (h - p) / 0x1_0000_0000;
    var k2 := (r - (31 * h + c)) / 0x1_0000_0000;
    assert h - p == k1 * 0x1_0000_0000;
    assert r - (31 * h + c) == k2 * 0x1_0000_0000;
    assert r - (31 * p + c) == (k2 + 31 * k1) * 0x1_0000_0000;
  }

  /**
   * `String.hashCode`: the hash polynomial of the UTF-16 code units taken in
   * 32-bit two's-complement arithmetic.
   */
  function StringHash(s: string): (r: int)
    ensures -0x8000_0000 <= r < 0x8000_0000
    ensures (r - Polynomial(Utf16(s))) % 0x1_0000_0000 == 0
  {
    UnitsHash(Utf16(s))
  }
}
