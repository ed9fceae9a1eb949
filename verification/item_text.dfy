/**
 * The text helpers of RemoteItemUtils: reading one child field of a listing
 * element (`text`) and sanitising a remote description (`cleanRemoteString`,
 * built on commons-lang `StringEscapeUtils.escapeHtml`).
 */
module ItemText {
  import opened Wrappers
  import opened JavaStrings

  /** `Constants.MAX_STR_LEN`: the longest description kept. */
  const MaxStrLen: nat := 4096

  // ---------------------------------------------------------------------------
  // Elements of a parsed listing
  // ---------------------------------------------------------------------------

  /** A descendant element of a listing entry: its tag name and its text content. */
  datatype Node = Node(tag: string, content: string)

  /** A DOM element, seen through its descendant elements in document order. */
  datatype Element = Element(descendants: seq<Node>)

  /** `getElementsByTagName(tag)`: the descendants carrying that tag, in document order. */
  function Tagged(nodes: seq<Node>, tag: string): (r: seq<Node>)
    ensures |r| <= |nodes|
  {
    if nodes == [] then []
    else (if nodes[0].tag == tag then [nodes[0]] else []) + Tagged(nodes[1..], tag)
  }

  /** `Tagged` keeps exactly the nodes that carry the tag. */
  lemma {:induction false} TaggedExactly(nodes: seq<Node>, tag: string)
    ensures forall k :: 0 <= k < |Tagged(nodes, tag)| ==> Tagged(nodes, tag)[k].tag == tag && Tagged(nodes, tag)[k] in nodes
    ensures forall k :: 0 <= k < |nodes| && nodes[k].tag == tag ==> nodes[k] in Tagged(nodes, tag)
  {
    if nodes != [] {
      TaggedExactly(nodes[1..], tag);
      var r := Tagged(nodes, tag);
      var head := if nodes[0].tag == tag then [nodes[0]] else [];
      var rest := Tagged(nodes[1..], tag);
      assert r == head + rest;
      forall k | 0 <= k < |r| ensures r[k].tag == tag && r[k] in nodes {
        if k >= |head| {
          assert r[k] == rest[k - |head|];
          assert rest[k - |head|] in nodes[1..];
        }
      }
      forall k | 0 <= k < |nodes| && nodes[k].tag == tag ensures nodes[k] in r {
        if k > 0 {
          assert nodes[k] == nodes[1..][k - 1];
        }
      }
    }
  }

  /**
   * `RemoteItemUtils.text`: the content of the one descendant with the tag, or
   * null when there is none or more than one.
   */
  function Text(e: Element, tag: string): (r: Option<string>)
    ensures r.Some? <==> |Tagged(e.descendants, tag)| == 1
    ensures r.Some? ==> exists k :: 0 <= k < |e.descendants| && e.descendants[k] == Node(tag, r.value)
  {
    var found := Tagged(e.descendants, tag);
    if |found| == 1 then
      TaggedExactly(e.descendants, tag);
      assert found[0] in e.descendants;
      Some(found[0].content)
    else None
  }

  /** When exactly one descendant carries the tag, `Text` is that descendant's content. */
  lemma {:induction false} TextOfUnique(e: Element, tag: string, k: nat)
    requires k < |e.descendants| && e.descendants[k].tag == tag
    requires forall j :: 0 <= j < |e.descendants| && j != k ==> e.descendants[j].tag != tag
    ensures Text(e, tag) == Some(e.descendants[k].content)
  {
    TaggedUnique(e.descendants, tag, k);
  }

  lemma {:induction false} TaggedUnique(nodes: seq<Node>, tag: string, k: nat)
    requires k < |nodes| && nodes[k].tag == tag
    requires forall j :: 0 <= j < |nodes| && j != k ==> nodes[j].tag != tag
    ensures Tagged(nodes, tag) == [nodes[k]]
  {
    if k == 0 {
      TaggedNone(nodes[1..], tag);
    } else {
      TaggedUnique(nodes[1..], tag, k - 1);
    }
  }

  lemma {:induction false} TaggedNone(nodes: seq<Node>, tag: string)
    requires forall j :: 0 <= j < |nodes| ==> nodes[j].tag != tag
    ensures Tagged(nodes, tag) == []
  {
    if nodes != [] {
      TaggedNone(nodes[1..], tag);
    }
  }

  /** `getElementsByTagName` keeps document order and multiplicity: it distributes over concatenation. */
  lemma {:induction false} TaggedAppend(a: seq<Node>, b: seq<Node>, tag: string)
    ensures Tagged(a + b, tag) == Tagged(a, tag) + Tagged(b, tag)
  {
    if a == [] {
      assert a + b == b;
    } else {
      var head := if a[0].tag == tag then [a[0]] else [];
      assert (a + b)[0] == a[0] && (a + b)[1..] == a[1..] + b;
      assert Tagged(a + b, tag) == head + Tagged(a[1..] + b, tag);
      TaggedAppend(a[1..], b, tag);
      assert Tagged(a, tag) == head + Tagged(a[1..], tag);
    }
  }

  /** With two descendants of the tag, `Text` is null. */
  lemma TextOfShared(e: Element, tag: string, i: nat, j: nat)
    requires i < j < |e.descendants|
    requires e.descendants[i].tag == tag && e.descendants[j].tag == tag
    ensures Text(e, tag) == None
  {
    var d := e.descendants;
    assert d == d[..j] + d[j..];
    TaggedAppend(d[..j], d[j..], tag);
    TaggedExactly(d[..j], tag);
    TaggedExactly(d[j..], tag);
    assert d[..j][i] == d[i];
    assert d[i] in Tagged(d[..j], tag);
    assert d[j..][0] == d[j];
    assert d[j] in Tagged(d[j..], tag);
  }

  // ---------------------------------------------------------------------------
  // Decimal numerals
  // ---------------------------------------------------------------------------

  predicate IsDigit(c: char)
  {
    '0' <= c <= '9'
  }

  function DigitValue(c: char): nat
    requires IsDigit(c)
  {
    c as int - '0' as int
  }

  /** The digit character of a value below ten. */
  function DigitChar(d: nat): (c: char)
    requires d < 10
    ensures IsDigit(c) && DigitValue(c) == d
  {
    ('0' as int + d) as char
  }

  predicate AllDigits(t: string)
  {
    forall i :: 0 <= i < |t| ==> IsDigit(t[i])
  }

  /** The number a string of decimal digits denotes, most significant digit first. */
  function DigitsValue(t: string): nat
    requires AllDigits(t)
  {
    if t == [] then 0 else 10 * DigitsValue(t[..|t| - 1]) + DigitValue(t[|t| - 1])
  }

  /**
   * `Integer.toString` of a natural number: a non-empty run of digits, without
   * a leading zero, denoting `n`.
   */
  function Decimal(n: nat): (r: string)
    ensures |r| >= 1 && AllDigits(r)
    ensures DigitsValue(r) == n
    ensures r[0] == '0' ==> n == 0
  {
    if n < 10 then [DigitChar(n)]
    else
      var r := Decimal(n / 10) + [DigitChar(n % 10)];
      assert r[..|r| - 1] == Decimal(n / 10);
      r
  }

  /** The number of decimal digits `t` starts with. */
  function DigitRun(t: string): (n: nat)
    ensures n <= |t| && AllDigits(t[..n])
    ensures n < |t| ==> !IsDigit(t[n])
  {
    if t != [] && IsDigit(t[0]) then
      var n := 1 + DigitRun(t[1..]);
      assert t[..n] == [t[0]] + t[1..][..n - 1];
      n
    else 0
  }

  /** A run of digits followed by a non-digit is read up to the non-digit. */
  lemma {:induction false} DigitRunStops(d: string, rest: string)
    requires AllDigits(d) && rest != [] && !IsDigit(rest[0])
    ensures DigitRun(d + rest) == |d|
  {
    if d != [] {
      assert (d + rest)[1..] == d[1..] + rest;
      DigitRunStops(d[1..], rest);
    }
  }

  // ---------------------------------------------------------------------------
  // HTML escaping and cleaning of remote strings
  // ---------------------------------------------------------------------------

  /** A numeric character reference `&#n;` to one UTF-16 code unit. */
  function Reference(unit: nat): string
  {
    "&#" + Decimal(unit) + ";"
  }

  /** A reference is ASCII, holds no markup and runs from `&` to `;`. */
  lemma ReferenceShape(unit: nat)
    ensures |Reference(unit)| >= 4 && Ascii(Reference(unit)) && MarkupFree(Reference(unit))
    ensures Reference(unit)[0] == '&' && Reference(unit)[|Reference(unit)| - 1] == ';'
  {
    var d := Decimal(unit);
    var r := Reference(unit);
    forall i | 0 <= i < |r| ensures r[i] as int < 0x80 && r[i] != '<' && r[i] != '>' && r[i] != '"' {
      if 2 <= i < 2 + |d| {
        assert r[i] == d[i - 2];
        assert IsDigit(d[i - 2]);
      }
    }
  }

  /** Two references in a row keep the shape of one. */
  lemma ReferencePairShape(hi: nat, lo: nat)
    ensures var r := Reference(hi) + Reference(lo);
            |r| >= 8 && Ascii(r) && MarkupFree(r) && r[0] == '&' && r[|r| - 1] == ';'
  {
    ReferenceShape(hi);
    ReferenceShape(lo);
    var a, b := Reference(hi), Reference(lo);
    var r := a + b;
    forall i | 0 <= i < |r| ensures r[i] as int < 0x80 && r[i] != '<' && r[i] != '>' && r[i] != '"' {
      if i >= |a| {
        assert r[i] == b[i - |a|];
      }
    }
  }

  /** A character the escaping keeps as it is: ASCII other than `"`, `&`, `<` and `>`. */
  predicate PlainChar(c: char)
  {
    c as int <= 0x7F && c != '"' && c != '&' && c != '<' && c != '>'
  }

  /** No character that could open or close markup or an attribute value. */
  predicate MarkupFree(t: string)
  {
    forall i :: 0 <= i < |t| ==> t[i] != '<' && t[i] != '>' && t[i] != '"'
  }

  /**
   * The escape of one UTF-16 code unit at a time: the four HTML 4.0 basic
   * entities by name, every unit above U+007F as a numeric character reference
   * (a character above U+FFFF is two units, a surrogate pair, and so two
   * references), the rest kept. The escape is ASCII, holds no markup, and is
   * the character itself exactly for a plain character.
   */
  function EscapeChar(c: char): (r: string)
    ensures |r| >= 1 && Ascii(r) && MarkupFree(r)
    ensures r == [c] <==> PlainChar(c)
    ensures !PlainChar(c) ==> r[0] == '&' && r[|r| - 1] == ';'
  {
    if c == '"' then "&quot;"
    else if c == '&' then "&amp;"
    else if c == '<' then "&lt;"
    else if c == '>' then "&gt;"
    else if c as int > 0x7F then
      var u := CharUnits(c);
      if |u| == 1 then
        ReferenceShape(u[0]);
        Reference(u[0])
      else
        ReferencePairShape(u[0], u[1]);
        Reference(u[0]) + Reference(u[1])
    else [c]
  }

  /**
   * `StringEscapeUtils.escapeHtml`, character by character: the result is
   * ASCII, holds no markup and is never shorter than the input.
   */
  function EscapeHtml(s: string): (r: string)
    ensures Ascii(r) && MarkupFree(r)
    ensures |r| >= |s|
  {
    if s == [] then []
    else
      var head, tail := EscapeChar(s[0]), EscapeHtml(s[1..]);
      var r := head + tail;
      assert forall i :: |head| <= i < |r| ==> r[i] == tail[i - |head|];
      r
  }

  /** Text that the escaping leaves alone. */
  predicate PlainText(s: string)
  {
    forall i :: 0 <= i < |s| ==> PlainChar(s[i])
  }

  /** Plain ASCII text without special characters comes out unchanged. */
  lemma {:induction false} EscapeHtmlKeepsPlainText(s: string)
    requires PlainText(s)
    ensures EscapeHtml(s) == s
  {
    if s != [] {
      EscapeHtmlKeepsPlainText(s[1..]);
      assert s == [s[0]] + s[1..];
    }
  }

  /** Escaping distributes over concatenation. */
  lemma {:induction false} EscapeHtmlAppend(a: string, b: string)
    ensures EscapeHtml(a + b) == EscapeHtml(a) + EscapeHtml(b)
  {
    if a == [] {
      assert a + b == b;
    } else {
      assert (a + b)[0] == a[0] && (a + b)[1..] == a[1..] + b;
      EscapeHtmlAppend(a[1..], b);
    }
  }

  // ---------------------------------------------------------------------------
  // Reading escaped text back (the inverse of the escaping)
  // ---------------------------------------------------------------------------

  /** A numeric reference read off the front of a text: the unit named and what follows. */
  datatype Read = Read(unit: nat, rest: string)

  /** Reads `&#digits;` at the front of `t`. */
  function ReadReference(t: string): (r: Option<Read>)
    ensures r.Some? ==> |r.value.rest| < |t|
  {
    if |t| < 2 || t[0] != '&' || t[1] != '#' then None
    else
      var n := DigitRun(t[2..]);
      if n == 0 || 2 + n >= |t| || t[2 + n] != ';' then None
      else
        assert t[2..][..n] == t[2..2 + n];
        Some(Read(DigitsValue(t[2..2 + n]), t[3 + n..]))
  }

  /** `Reference` is read back as the unit it names. */
  lemma ReadReferenceOf(unit: nat, rest: string)
    ensures ReadReference(Reference(unit) + rest) == Some(Read(unit, rest))
  {
    var d := Decimal(unit);
    assert Reference(unit) + rest == "&#" + (d + (";" + rest));
    ReadDigits(d, rest);
  }

  /** A run of digits between `&#` and `;` is read as the number it denotes. */
  lemma ReadDigits(d: string, rest: string)
    requires |d| >= 1 && AllDigits(d)
    ensures ReadReference("&#" + (d + (";" + rest))) == Some(Read(DigitsValue(d), rest))
  {
    var t := "&#" + (d + (";" + rest));
    assert t[2..] == d + (";" + rest);
    DigitRunStops(d, ";" + rest);
    assert t[2..2 + |d|] == d;
    assert t[3 + |d|..] == rest;
  }

  function Prepend(c: char, r: Option<string>): Option<string>
  {
    match r
    case None => None
    case Some(t) => Some([c] + t)
  }

  /** A character decoded from the front of a text, and the text after it. */
  datatype Decoded = Decoded(c: char, rest: string)

  /** One of the four named entities at the front of `t`. */
  function Entity(t: string): (r: Option<Decoded>)
    ensures r.Some? ==> |r.value.rest| < |t|
  {
    if StartsWith(t, "&quot;") then Some(Decoded('"', t[6..]))
    else if StartsWith(t, "&amp;") then Some(Decoded('&', t[5..]))
    else if StartsWith(t, "&lt;") then Some(Decoded('<', t[4..]))
    else if StartsWith(t, "&gt;") then Some(Decoded('>', t[4..]))
    else None
  }

  /**
   * The character of the numeric reference at the front of `t`: a unit that is
   * a character on its own, or a high surrogate whose low partner follows as a
   * second reference.
   */
  function NumericChar(t: string): (r: Option<Decoded>)
    ensures r.Some? ==> |r.value.rest| < |t|
  {
    match ReadReference(t)
    case None => None
    case Some(Read(u, rest)) =>
      if u < 0xD800 || 0xE000 <= u < 0x11_0000 then Some(Decoded(u as char, rest))
      else if HighSurrogate(u) then
        match ReadReference(rest)
        case Some(Read(lo, rest2)) =>
          if 0xDC00 <= lo < 0xE000 then Some(Decoded(CodePoint([u, lo]) as char, rest2)) else None
        case None => None
      else None
  }

  /**
   * The decoding of escaped text: each of the four named entities and each
   * numeric reference (a surrogate pair as two references) gives back its
   * character, any other character stands for itself; `None` for a malformed
   * reference.
   */
  function Unescape(t: string): Option<string>
    decreases |t|
  {
    if t == [] then Some([])
    else if t[0] != '&' then Prepend(t[0], Unescape(t[1..]))
    else
      match Entity(t)
      case Some(Decoded(c, rest)) => Prepend(c, Unescape(rest))
      case None =>
        match NumericChar(t)
        case Some(Decoded(c, rest)) => Prepend(c, Unescape(rest))
        case None => None
  }

  /** Each of the four named entities is read as its character. */
  lemma EntityOf(name: string, c: char, rest: string)
    requires (name, c) in {("&quot;", '"'), ("&amp;", '&'), ("&lt;", '<'), ("&gt;", '>')}
    ensures Entity(name + rest) == Some(Decoded(c, rest))
  {
    var t := name + rest;
    assert t[..|name|] == name && t[|name|..] == rest;
    assert t[1] == name[1];
  }

  /** No named entity starts with `&#`. */
  lemma NoEntityAtReference(t: string)
    requires |t| >= 2 && t[1] == '#'
    ensures Entity(t).None?
  {
  }

  /** A text opening with a numeric reference is decoded from that reference. */
  lemma UnescapeAtReference(t: string, d: Decoded)
    requires |t| >= 2 && t[0] == '&' && t[1] == '#' && NumericChar(t) == Some(d)
    ensures Unescape(t) == Prepend(d.c, Unescape(d.rest))
  {
    NoEntityAtReference(t);
  }

  /** A reference to a unit that is a character on its own decodes to that character. */
  lemma UnescapeSingleReference(unit: nat, rest: string)
    requires unit < 0xD800 || 0xE000 <= unit < 0x11_0000
    ensures Unescape(Reference(unit) + rest) == Prepend(unit as char, Unescape(rest))
  {
    var t := Reference(unit) + rest;
    ReadReferenceOf(unit, rest);
    UnescapeAtReference(t, Decoded(unit as char, rest));
  }

  /** The references to a high and a low surrogate are read as the character of the pair. */
  lemma NumericPair(hi: nat, lo: nat, rest: string)
    requires HighSurrogate(hi) && 0xDC00 <= lo < 0xE000
    ensures NumericChar(Reference(hi) + (Reference(lo) + rest)) == Some(Decoded(CodePoint([hi, lo]) as char, rest))
  {
    ReadReferenceOf(hi, Reference(lo) + rest);
    ReadReferenceOf(lo, rest);
  }

  /** The references to the two surrogates of a character decode to that character. */
  lemma UnescapePairReference(c: char, rest: string)
    requires 0x1_0000 <= c as int
    ensures Unescape(Reference(CharUnits(c)[0]) + (Reference(CharUnits(c)[1]) + rest)) == Prepend(c, Unescape(rest))
  {
    SurrogatePair(c);
    var hi, lo := CharUnits(c)[0], CharUnits(c)[1];
    NumericPair(hi, lo, rest);
    assert CodePoint([hi, lo]) == c as int by {
      assert CharUnits(c) == [hi, lo];
    }
    UnescapeAtReference(Reference(hi) + (Reference(lo) + rest), Decoded(c, rest));
  }

  /** The numeric references of a character above U+007F decode to it. */
  lemma UnescapeEscapeWide(c: char, rest: string)
    requires c as int > 0x7F
    ensures Unescape(EscapeChar(c) + rest) == Prepend(c, Unescape(rest))
  {
    if c as int < 0x1_0000 {
      UnescapeEscapeBmp(c, rest);
    } else {
      UnescapeEscapeSupplementary(c, rest);
    }
  }

  /** A character above U+007F and below U+10000 is escaped as one reference. */
  lemma UnescapeEscapeBmp(c: char, rest: string)
    requires 0x7F < c as int < 0x1_0000
    ensures Unescape(EscapeChar(c) + rest) == Prepend(c, Unescape(rest))
  {
    var u := CharUnits(c);
    assert EscapeChar(c) == Reference(u[0]);
    UnescapeSingleReference(u[0], rest);
  }

  /** A character from U+10000 on is escaped as the references of its surrogate pair. */
  lemma UnescapeEscapeSupplementary(c: char, rest: string)
    requires 0x1_0000 <= c as int
    ensures Unescape(EscapeChar(c) + rest) == Prepend(c, Unescape(rest))
  {
    var a, b := Reference(CharUnits(c)[0]), Reference(CharUnits(c)[1]);
    calc {
      Unescape(EscapeChar(c) + rest);
      { EscapeCharPair(c); assert (a + b) + rest == a + (b + rest); }
      Unescape(a + (b + rest));
      { UnescapePairReference(c, rest); }
      Prepend(c, Unescape(rest));
    }
  }

  /** A character from U+10000 on is escaped as the references of its two surrogates. */
  lemma EscapeCharPair(c: char)
    requires 0x1_0000 <= c as int
    ensures EscapeChar(c) == Reference(CharUnits(c)[0]) + Reference(CharUnits(c)[1])
  {
  }

  /** Decoding the escape of one character gives the character back. */
  lemma UnescapeEscapeChar(c: char, rest: string)
    ensures Unescape(EscapeChar(c) + rest) == Prepend(c, Unescape(rest))
  {
    if PlainChar(c) {
      var t := EscapeChar(c) + rest;
      assert EscapeChar(c) == [c];
      assert t[0] == c && t[1..] == rest;
    } else if c as int > 0x7F {
      UnescapeEscapeWide(c, rest);
    } else {
      UnescapeEscapeEntity(c, rest);
    }
  }

  /** Each of the four named entities decodes to its character. */
  lemma UnescapeEscapeEntity(c: char, rest: string)
    requires !PlainChar(c) && c as int <= 0x7F
    ensures Unescape(EscapeChar(c) + rest) == Prepend(c, Unescape(rest))
  {
    var name := EscapeChar(c);
    if c == '"' {
      assert name == "&quot;";
      EntityOf(name, c, rest);
    } else if c == '&' {
      assert name == "&amp;";
      EntityOf(name, c, rest);
    } else if c == '<' {
      assert name == "&lt;";
      EntityOf(name, c, rest);
    } else {
      assert name == "&gt;";
      EntityOf(name, c, rest);
    }
    assert (name + rest)[0] == '&';
  }

  /** Escaping loses nothing: decoding the escaped text gives the input back. */
  lemma {:induction false} UnescapeEscapeHtml(s: string)
    ensures Unescape(EscapeHtml(s)) == Some(s)
  {
    if s != [] {
      UnescapeEscapeHtml(s[1..]);
      UnescapeEscapeChar(s[0], EscapeHtml(s[1..]));
      assert s == [s[0]] + s[1..];
    }
  }

  /** Escaping is injective: distinct texts have distinct escapes. */
  lemma EscapeHtmlInjective(a: string, b: string)
    requires EscapeHtml(a) == EscapeHtml(b)
    ensures a == b
  {
    UnescapeEscapeHtml(a);
    UnescapeEscapeHtml(b);
  }

  /**
   * `RemoteItemUtils.cleanRemoteString`: the HTML-escaped text cut to its first
   * 4096 characters; null stays null. The escaped text is ASCII, so the cut
   * counts UTF-16 code units exactly as `StringUtils.substring` does.
   */
  function CleanRemoteString(s: Option<string>): (r: Option<string>)
    ensures r.None? <==> s.None?
    ensures r.Some? ==> |r.value| <= MaxStrLen
    ensures r.Some? ==> |r.value| <= |EscapeHtml(s.value)| && r.value == EscapeHtml(s.value)[..|r.value|]
    ensures r.Some? && |EscapeHtml(s.value)| <= MaxStrLen ==> r.value == EscapeHtml(s.value)
    ensures r.Some? && |EscapeHtml(s.value)| > MaxStrLen ==> |r.value| == MaxStrLen
    ensures r.Some? ==> MarkupFree(r.value) && Ascii(r.value) && |Utf16(r.value)| == |r.value|
  {
    match s
    case None => None
    case Some(v) =>
      var e := EscapeHtml(v);
      var t := if |e| <= MaxStrLen then e else e[..MaxStrLen];
      AsciiUnits(t);
      Some(t)
  }
}
