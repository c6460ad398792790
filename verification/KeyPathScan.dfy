/**
 Reading a printed key path back, and what follows: joining printed names on a dot is uniquely decodable, so an
 object's absolute ID determines its chain of names.
 */
module KeyPathScan {
  import opened Options
  import opened KeyPath

  /** A keyword must itself be printable bare, so that only its letter case can change. */
  predicate KeywordsBare(g: Globals) {
    forall k :: k in g.reserved ==> Bare(k, g)
  }

  predicate Bare(s: string, g: Globals) {
    Form(s, g) == Unquoted(s)
  }

  predicate Ready(g: Globals) {
    g.specials == SPECIALS && KeywordsBare(g)
  }

  predicate Keyword(k: string, i: nat)
    requires i <= |k|
    decreases |k| - i
  {
    i == |k| || ((IsPlainChar(k[i]) || (0 < i && k[i] == '-' && i + 1 < |k| && k[i + 1] != '-')) && Keyword(k, i + 1))
  }

  lemma {:induction false} KeywordAt(k: string, i: nat, j: nat)
    requires i <= j < |k| && Keyword(k, i)
    ensures IsPlainChar(k[j]) || (0 < j && k[j] == '-' && j + 1 < |k| && k[j + 1] != '-')
    decreases j - i
  {
    if i < j {
      KeywordAt(k, i + 1, j);
    }
  }

  lemma KeywordBare(k: string, g: Globals)
    requires k != "" && Keyword(k, 0) && g.specials == SPECIALS
    ensures Bare(k, g)
  {
    hide Keyword, SpecialAt;
    forall i | 0 <= i < |k|
      ensures !SpecialAt(k, i, g)
    {
      KeywordPlain(k, i, g);
    }
    KeywordAt(k, 0, 0);
    KeywordAt(k, 0, |k| - 1);
  }

  lemma KeywordPlain(k: string, i: nat, g: Globals)
    requires i < |k| && Keyword(k, 0) && g.specials == SPECIALS
    ensures !SpecialAt(k, i, g)
  {
    hide Keyword;
    KeywordAt(k, 0, i);
  }

  predicate KeywordText(k: string) {
    k != "" && Keyword(k, 0)
  }

  lemma Keywords1()
    ensures KeywordText("label") && KeywordText("shape") && KeywordText("icon") && KeywordText("constraint") &&
            KeywordText("tooltip") && KeywordText("link") && KeywordText("near") && KeywordText("width") &&
            KeywordText("height") && KeywordText("direction")
  {
    assert Keyword("constraint", 5);
  }

  lemma Keywords2()
    ensures KeywordText("top") && KeywordText("left") && KeywordText("grid-rows") && KeywordText("grid-columns") &&
            KeywordText("grid-gap") && KeywordText("vertical-gap") && KeywordText("horizontal-gap") &&
            KeywordText("class") && KeywordText("vars")
  {
    assert Keyword("grid-columns", 6);
    assert Keyword("vertical-gap", 6);
    assert Keyword("horizontal-gap", 7);
  }

  lemma Keywords3()
    ensures KeywordText("opacity") && KeywordText("stroke") && KeywordText("fill") && KeywordText("fill-pattern") &&
            KeywordText("stroke-width") && KeywordText("stroke-dash") && KeywordText("border-radius") &&
            KeywordText("font") && KeywordText("font-size") && KeywordText("font-color")
  {
    assert Keyword("fill-pattern", 6);
    assert Keyword("stroke-width", 6);
    assert Keyword("stroke-dash", 5);
    assert Keyword("border-radius", 6);
    assert Keyword("font-color", 5);
  }

  lemma Keywords4()
    ensures KeywordText("bold") && KeywordText("italic") && KeywordText("underline") &&
            KeywordText("text-transform") && KeywordText("shadow") && KeywordText("multiple") &&
            KeywordText("double-border") && KeywordText("3d") && KeywordText("animated") && KeywordText("filled")
  {
    assert Keyword("text-transform", 7);
    assert Keyword("double-border", 6);
  }

  lemma Keywords5()
    ensures KeywordText("style") && KeywordText("source-arrowhead") && KeywordText("target-arrowhead") &&
            KeywordText("classes") && KeywordText("layers") && KeywordText("scenarios") && KeywordText("steps")
  {
    assert Keyword("source-arrowhead", 8);
    assert Keyword("target-arrowhead", 8);
  }

  lemma SimpleKeywords(k: string)
    requires k in SIMPLE_KEYWORDS
    ensures KeywordText(k)
  {
    hide KeywordText, Keyword;
    Keywords1();
    Keywords2();
  }

  lemma StyleKeywords(k: string)
    requires k in STYLE_KEYWORDS
    ensures KeywordText(k)
  {
    hide KeywordText, Keyword;
    Keywords3();
    Keywords4();
  }

  lemma CompositeKeywords(k: string)
    requires k in COMPOSITE_KEYWORDS
    ensures KeywordText(k)
  {
    hide KeywordText, Keyword;
    Keywords1();
    Keywords5();
  }

  lemma ReservedText(k: string)
    requires k in RESERVED
    ensures KeywordText(k)
  {
    hide KeywordText, SIMPLE_KEYWORDS, STYLE_KEYWORDS, COMPOSITE_KEYWORDS;
    if k in SIMPLE_KEYWORDS {
      SimpleKeywords(k);
    } else if k in STYLE_KEYWORDS {
      StyleKeywords(k);
    } else {
      CompositeKeywords(k);
    }
  }

  lemma ReservedBare(k: string)
    requires k in RESERVED
    ensures Bare(k, STANDARD)
  {
    hide Bare, RESERVED, SIMPLE_KEYWORDS, STYLE_KEYWORDS, COMPOSITE_KEYWORDS;
    ReservedText(k);
    KeywordBare(k, STANDARD);
  }

  /** The usual specials and keywords meet the conditions of the theorems below. */
  lemma StandardReady()
    ensures Ready(STANDARD)
  {
    forall k | k in RESERVED
      ensures Bare(k, STANDARD)
    {
      ReservedBare(k);
    }
  }

  // ----- a scanner for key paths, after the parser's rules -----

  function DecodeEscape(c: char): string {
    if c == 'n' then "\n"
    else if c == 't' then "\t"
    else if c == 'r' then "\r"
    else if c == '\n' then ""
    else [c]
  }

  /** The rest of a double-quoted string: its value and what follows the closing quote. */
  function ScanDouble(s: string): Option<(string, string)> {
    if s == "" || s[0] == '\n' then None
    else if s[0] == '"' then Some(("", s[1..]))
    else if s[0] == '\\' then
      if |s| < 2 then None
      else
        match ScanDouble(s[2..])
        case None => None
        case Some((v, rest)) => Some((DecodeEscape(s[1]) + v, rest))
    else
      match ScanDouble(s[1..])
      case None => None
      case Some((v, rest)) => Some(([s[0]] + v, rest))
  }

  function ScanSingle(s: string): Option<(string, string)> {
    if s == "" || s[0] == '\n' then None
    else if s[0] == '\'' then
      if |s| > 1 && s[1] == '\'' then
        match ScanSingle(s[2..])
        case None => None
        case Some((v, rest)) => Some(("'" + v, rest))
      else Some(("", s[1..]))
    else if s[0] == '\\' && |s| > 1 && s[1] == '\n' then ScanSingle(s[2..])
    else
      match ScanSingle(s[1..])
      case None => None
      case Some((v, rest)) => Some(([s[0]] + v, rest))
  }

  /** A bare string ends before any of these. */
  const STOPS := "#;\n{}[]:.<>*()@"

  function ScanBare(s: string): (string, string) {
    if s == "" || s[0] in STOPS then ("", s)
    else
      var (v, rest) := ScanBare(s[1..]);
      ([s[0]] + v, rest)
  }

  function TrimLeft(s: string): string {
    if s != "" && IsSpace(s[0]) then TrimLeft(s[1..]) else s
  }

  function TrimRight(s: string): string {
    if s != "" && IsSpace(s[|s| - 1]) then TrimRight(s[..|s| - 1]) else s
  }

  /** Spaces around a bare string do not belong to it. */
  function ScanElement(s: string): Option<(string, string)> {
    if s == "" then None
    else if s[0] == '"' then ScanDouble(s[1..])
    else if s[0] == '\'' then ScanSingle(s[1..])
    else
      var bare := ScanBare(s);
      var name := TrimRight(TrimLeft(bare.0));
      if name == "" then None else Some((name, bare.1))
  }

  lemma {:induction false} ScanDoubleShrinks(s: string)
    ensures ScanDouble(s).Some? ==> |ScanDouble(s).value.1| < |s|
    decreases |s|
  {
    if s != "" && s[0] != '\n' && s[0] != '"' {
      if s[0] == '\\' && |s| >= 2 {
        ScanDoubleShrinks(s[2..]);
      } else if s[0] != '\\' {
        ScanDoubleShrinks(s[1..]);
      }
    }
  }

  lemma {:induction false} ScanSingleShrinks(s: string)
    ensures ScanSingle(s).Some? ==> |ScanSingle(s).value.1| < |s|
    decreases |s|
  {
    if s != "" && s[0] != '\n' {
      if |s| > 1 {
        ScanSingleShrinks(s[2..]);
      }
      ScanSingleShrinks(s[1..]);
    }
  }

  lemma {:induction false} ScanBareShrinks(s: string)
    ensures |ScanBare(s).0| + |ScanBare(s).1| == |s|
    decreases |s|
  {
    if s != "" && s[0] !in STOPS {
      ScanBareShrinks(s[1..]);
    }
  }

  lemma ScanElementShrinks(s: string)
    ensures ScanElement(s).Some? ==> |ScanElement(s).value.1| < |s|
  {
    if s != "" {
      ScanDoubleShrinks(s[1..]);
      ScanSingleShrinks(s[1..]);
      ScanBareShrinks(s);
      assert TrimRight(TrimLeft("")) == "";
    }
  }

  /** Elements separated by single dots; the empty text is the empty path. */
  function Scan(s: string): Option<seq<string>>
    decreases |s|
  {
    if s == "" then Some([])
    else
      ScanElementShrinks(s);
      match ScanElement(s)
      case None => None
      case Some((v, rest)) =>
        if rest == "" then Some([v])
        else if rest[0] != '.' || |rest| == 1 then None
        else
          match Scan(rest[1..])
          case None => None
          case Some(more) => Some([v] + more)
  }

  // ----- printing then scanning -----

  /** What survives printing: the letter case of null and of reserved keywords does not. */
  function Canonical(s: string, g: Globals): string {
    if EqualFold(s, "null") then "null"
    else if Bare(s, g) && Lower(s) in g.reserved then Lower(s)
    else s
  }

  predicate EndsElement(rest: string) {
    rest == "" || rest[0] == '.'
  }

  /** A quoted element tells its own end, unless another quote follows. */
  predicate EndsQuoted(rest: string) {
    rest == "" || rest[0] != '\''
  }

  lemma ScanDoubleChar(c: char, tail: string)
    requires ScanDouble(tail).Some?
    ensures ScanDouble(DoubleChar(c) + tail) == Some(([c] + ScanDouble(tail).value.0, ScanDouble(tail).value.1))
  {
    var tail' := DoubleChar(c) + tail;
    if |DoubleChar(c)| == 2 {
      assert tail'[0] == '\\' && tail'[2..] == tail;
    } else {
      assert tail'[0] == c && tail'[1..] == tail;
    }
  }

  lemma {:induction false} ScanEscapedDouble(s: string, tail: string)
    requires ScanDouble(tail).Some?
    ensures ScanDouble(EscapeDouble(s) + tail) == Some((s + ScanDouble(tail).value.0, ScanDouble(tail).value.1))
    decreases |s|
  {
    hide ScanDouble, DoubleChar;
    var v := ScanDouble(tail).value.0;
    if s == "" {
      assert EscapeDouble(s) + tail == tail && s + v == v;
    } else {
      var k := |s| - 1;
      ScanDoubleChar(s[k], tail);
      ScanEscapedDouble(s[..k], DoubleChar(s[k]) + tail);
      assert EscapeDouble(s) + tail == EscapeDouble(s[..k]) + (DoubleChar(s[k]) + tail);
      assert s[..k] + ([s[k]] + v) == s + v;
    }
  }

  lemma ScanSingleChar(c: char, tail: string)
    requires ScanSingle(tail).Some? && c != '\n'
    ensures ScanSingle(SingleChar(c) + tail) == Some(([c] + ScanSingle(tail).value.0, ScanSingle(tail).value.1))
  {
    var tail' := SingleChar(c) + tail;
    assert tail != "" && tail[0] != '\n';
    if c == '\'' {
      assert tail'[2..] == tail;
    } else {
      assert tail'[0] == c && tail'[1..] == tail && tail'[1] == tail[0];
    }
  }

  lemma {:induction false} ScanEscapedSingle(s: string, tail: string)
    requires ScanSingle(tail).Some? && '\n' !in s
    ensures ScanSingle(EscapeSingle(s) + tail) == Some((s + ScanSingle(tail).value.0, ScanSingle(tail).value.1))
    decreases |s|
  {
    hide ScanSingle, SingleChar;
    var v := ScanSingle(tail).value.0;
    if s == "" {
      assert EscapeSingle(s) + tail == tail && s + v == v;
    } else {
      var k := |s| - 1;
      assert s[k] in s;
      ScanSingleChar(s[k], tail);
      ScanEscapedSingle(s[..k], SingleChar(s[k]) + tail);
      assert EscapeSingle(s) + tail == EscapeSingle(s[..k]) + (SingleChar(s[k]) + tail);
      assert s[..k] + ([s[k]] + v) == s + v;
    }
  }

  lemma {:induction false} ScanBareText(s: string, rest: string)
    requires (forall i :: 0 <= i < |s| ==> s[i] !in STOPS) && EndsElement(rest)
    ensures ScanBare(s + rest) == (s, rest)
  {
    if s == "" {
      assert s + rest == rest;
      assert STOPS[8] == '.';
    } else {
      assert (s + rest)[0] == s[0];
      ScanBareText(s[1..], rest);
      assert (s + rest)[1..] == s[1..] + rest;
      assert s == [s[0]] + s[1..];
    }
  }

  /** A bare string has no character that escaping would touch. */
  lemma {:induction false} BareUnescaped(s: string, n: nat, g: Globals)
    requires g.specials == SPECIALS && Bare(s, g) && n <= |s|
    ensures EscapeBareTo(s, n, g) == s[..n]
  {
    if n > 0 {
      BareUnescaped(s, n - 1, g);
      BareCharacter(s, n - 1, g);
    }
  }

  lemma StopsAreSpecial()
    ensures forall c :: c in STOPS ==> c in SPECIALS && c != '-'
  {
    assert '#' == SPECIALS[0] && ';' == SPECIALS[1] && '\n' == SPECIALS[2] && '{' == SPECIALS[4];
    assert '}' == SPECIALS[5] && '[' == SPECIALS[6] && ']' == SPECIALS[7] && ':' == SPECIALS[11];
    assert '.' == SPECIALS[12] && '<' == SPECIALS[14] && '>' == SPECIALS[15] && '*' == SPECIALS[16];
    assert '(' == SPECIALS[18] && ')' == SPECIALS[19] && '@' == SPECIALS[20];
  }

  lemma BareCharacter(s: string, i: nat, g: Globals)
    requires g.specials == SPECIALS && Bare(s, g) && i < |s|
    ensures s[i] != '.' && s[i] != '"' && s[i] != '\'' && s[i] != '\n' && BareChar(s, i, g) == [s[i]]
    ensures s[i] !in STOPS
  {
    StopsAreSpecial();
    assert !SpecialAt(s, i, g);
    assert g.specials[19] == ')';
    if s[i] != '-' {
      assert s[i] !in g.specials;
      assert '.' == g.specials[12] && '"' == g.specials[9] && '\'' == g.specials[8] && '\n' == g.specials[2] &&
             '|' == g.specials[10];
      assert '&' == g.specials[17];
    } else {
      assert '-' == g.specials[13];
    }
  }

  lemma LowerFacts(s: string)
    ensures Lower(Lower(s)) == Lower(s)
    ensures Lower("null") == "null"
  {
  }

  /** Letter case does not decide whether a string is printed bare. */
  lemma BareFolds(s: string, t: string, g: Globals)
    requires g.specials == SPECIALS && EqualFold(s, t)
    ensures Bare(s, g) <==> Bare(t, g)
  {
    SpecialFolds(s, t, g);
    SpecialFolds(t, s, g);
    if s != "" {
      assert LowerChar(s[0]) == Lower(s)[0] == LowerChar(t[0]);
      assert LowerChar(s[|s| - 1]) == Lower(s)[|s| - 1] == LowerChar(t[|s| - 1]);
    }
  }

  lemma SpecialFolds(s: string, t: string, g: Globals)
    requires g.specials == SPECIALS && EqualFold(s, t)
    ensures |s| == |t| && (NeedsQuotes(s, g) ==> NeedsQuotes(t, g))
  {
    if NeedsQuotes(s, g) {
      var i :| 0 <= i < |s| && SpecialAt(s, i, g);
      assert LowerChar(s[i]) == Lower(s)[i] == Lower(t)[i] == LowerChar(t[i]);
      SpecialsHaveNoLetters(s[i], g);
      assert s[i] == t[i];
      if i + 1 < |s| {
        assert LowerChar(s[i + 1]) == Lower(s)[i + 1] == Lower(t)[i + 1] == LowerChar(t[i + 1]);
      }
      assert SpecialAt(t, i, g);
    }
  }

  lemma SpecialsHaveNoLetters(c: char, g: Globals)
    requires g.specials == SPECIALS && c in g.specials
    ensures !('a' <= c <= 'z') && !('A' <= c <= 'Z')
  {
  }

  /** One printed element, followed by a dot or the end, scans back to its canonical name. */
  lemma ScanPrinted(s: string, rest: string, g: Globals)
    requires Ready(g) && EndsElement(rest)
    ensures ScanElement(Element(s, g) + rest) == Some((Canonical(s, g), rest))
    ensures Element(s, g) != ""
  {
    if Bare(s, g) {
      if EqualFold(s, "null") {
        LowerFacts(s);
        ScanNull(s, rest, g);
      } else {
        ScanBareElement(s, rest, g);
      }
    } else {
      QuotedIsCanonical(s, g);
      ScanQuoted(s, rest, g);
    }
  }

  lemma QuotedText(s: string, g: Globals)
    requires !Bare(s, g)
    ensures Element(s, g) == "\"" + EscapeDouble(s) + "\"" ||
            (Element(s, g) == "'" + EscapeSingle(s) + "'" && '\n' !in s)
  {
  }

  lemma CloseDouble(rest: string)
    ensures ScanDouble("\"" + rest) == Some(("", rest))
  {
    var tail := "\"" + rest;
    assert tail[0] == '"' && tail[1..] == rest;
  }

  lemma ScanDoubleQuoted(s: string, rest: string)
    ensures ScanElement("\"" + EscapeDouble(s) + "\"" + rest) == Some((s, rest))
  {
    hide EscapeDouble, ScanDouble, ScanElement;
    CloseDouble(rest);
    ScanEscapedDouble(s, "\"" + rest);
    assert s + "" == s;
    OpenDouble(EscapeDouble(s), "\"" + rest);
    FromTheRight("\"", EscapeDouble(s), "\"", rest);
  }

  lemma FromTheRight(a: string, b: string, c: string, d: string)
    ensures a + b + c + d == a + (b + (c + d))
  {
  }

  lemma OpenDouble(inner: string, tail: string)
    ensures ScanElement("\"" + (inner + tail)) == ScanDouble(inner + tail)
  {
    var text := "\"" + (inner + tail);
    assert text[0] == '"' && text[1..] == inner + tail;
  }

  lemma ScanSingleQuoted(s: string, rest: string)
    requires EndsQuoted(rest) && '\n' !in s
    ensures ScanElement("'" + EscapeSingle(s) + "'" + rest) == Some((s, rest))
  {
    var tail := "'" + rest;
    assert ScanSingle(tail) == Some(("", rest)) by {
      assert tail[1..] == rest;
    }
    ScanEscapedSingle(s, tail);
    hide ScanSingle, EscapeSingle;
    var text := "'" + EscapeSingle(s) + "'" + rest;
    assert text[0] == '\'' && text[1..] == EscapeSingle(s) + tail;
    assert s + "" == s;
  }

  lemma ScanQuoted(s: string, rest: string, g: Globals)
    requires !Bare(s, g) && EndsQuoted(rest)
    ensures ScanElement(Element(s, g) + rest) == Some((s, rest))
    ensures Element(s, g) != ""
  {
    QuotedText(s, g);
    hide Element, Bare, EscapeDouble, EscapeSingle, ScanElement;
    ScanDoubleQuoted(s, rest);
    if '\n' !in s {
      ScanSingleQuoted(s, rest);
    }
  }

  lemma QuotedIsCanonical(s: string, g: Globals)
    requires Ready(g) && !Bare(s, g)
    ensures Canonical(s, g) == s
  {
    if EqualFold(s, "null") {
      NullIsBare(g);
      LowerFacts("null");
      BareFolds(s, "null", g);
    }
  }

  lemma NullIsBare(g: Globals)
    requires g.specials == SPECIALS
    ensures Bare("null", g)
  {
    assert Keyword("null", 0);
    KeywordBare("null", g);
  }

  lemma {:induction false} NothingToEscape(s: string)
    requires '\'' !in s && '\n' !in s
    ensures EscapeSingle(s) == s
  {
    if s != "" {
      var k := |s| - 1;
      NothingToEscape(s[..k]);
      assert s[k] in s && s == s[..k] + [s[k]];
    }
  }

  lemma NullElement(s: string, g: Globals)
    requires Ready(g) && EqualFold(s, "null") && Bare(s, g)
    ensures Element(s, g) == "'null'"
  {
    assert Lower("'null'") == "'null'";
    if "'null'" in g.reserved {
      BareCharacter("'null'", 0, g);
    }
  }

  lemma ScanNull(s: string, rest: string, g: Globals)
    requires EndsQuoted(rest) && Ready(g) && EqualFold(s, "null") && Bare(s, g)
    ensures Element(s, g) == "'null'" && ScanElement(Element(s, g) + rest) == Some(("null", rest))
  {
    NullElement(s, g);
    var tail := "'" + rest;
    assert tail[1..] == rest;
    ScanEscapedSingle("null", tail);
    NothingToEscape("null");
    assert ("'null'" + rest)[1..] == "null" + tail;
    assert "null" + "" == "null";
  }

  lemma ScanBareElement(s: string, rest: string, g: Globals)
    requires Ready(g) && EndsElement(rest) && Bare(s, g) && !EqualFold(s, "null")
    ensures ScanElement(Element(s, g) + rest) == Some((Canonical(s, g), rest))
    ensures Element(s, g) == Canonical(s, g) != ""
  {
    LowerFacts(s);
    BareUnescaped(s, |s|, g);
    assert s[..|s|] == s;
    BareFolds(s, Lower(s), g);
    var text := Element(s, g);
    assert text == Canonical(s, g) && Bare(text, g);
    forall i | 0 <= i < |text|
      ensures text[i] !in STOPS && text[i] != '"' && text[i] != '\''
    {
      BareCharacter(text, i, g);
    }
    ScanBareText(text, rest);
    assert (text + rest)[0] == text[0];
    assert TrimRight(TrimLeft(text)) == text;
  }

  function Canonicals(a: seq<string>, g: Globals): (r: seq<string>)
    ensures |r| == |a|
  {
    seq(|a|, i requires 0 <= i < |a| => Canonical(a[i], g))
  }

  /** The round trip: a printed key path scans back to its canonical names. */
  lemma {:induction false} ScanJoined(a: seq<string>, g: Globals)
    requires Ready(g)
    ensures Scan(Join(Elements(a, g))) == Some(Canonicals(a, g))
    ensures a != [] ==> Join(Elements(a, g)) != ""
    decreases |a|
  {
    hide Element, Canonical, ScanElement;
    if |a| == 1 {
      ScanPrinted(a[0], "", g);
      assert Element(a[0], g) + "" == Element(a[0], g) == Join(Elements(a, g));
      assert Canonicals(a, g) == [Canonical(a[0], g)];
    } else if a != [] {
      ScanJoined(a[1..], g);
      assert Elements(a, g)[1..] == Elements(a[1..], g) && Canonicals(a, g) == [Canonical(a[0], g)] +
             Canonicals(a[1..], g);
      var rest := "." + Join(Elements(a[1..], g));
      ScanPrinted(a[0], rest, g);
      assert Join(Elements(a, g)) == Element(a[0], g) + rest;
      assert rest[1..] == Join(Elements(a[1..], g));
    }
  }

  /** Equal up to the letter case of null and of reserved keywords. */
  predicate SameName(s: string, t: string, g: Globals) {
    s == t || (EqualFold(s, t) && (EqualFold(s, "null") || Lower(s) in g.reserved))
  }

  lemma CanonicalSame(s: string, t: string, g: Globals)
    requires Ready(g)
    ensures Canonical(s, g) == Canonical(t, g) <==> SameName(s, t, g)
    ensures SameName(s, t, g) ==> Element(s, g) == Element(t, g)
  {
    LowerFacts(s);
    LowerFacts(t);
    if Lower(s) in g.reserved {
      BareFolds(s, Lower(s), g);
    }
    if Lower(t) in g.reserved {
      BareFolds(t, Lower(t), g);
    }
    if SameName(s, t, g) && s != t {
      if EqualFold(s, "null") {
        NullIsBare(g);
        BareFolds(s, "null", g);
        BareFolds(t, "null", g);
      } else {
        ScanBareElement(s, "", g);
        ScanBareElement(t, "", g);
      }
    }
  }

  /** Two key paths print alike exactly when they agree element by element, up to the case of null and keywords. */
  lemma PrintedAlike(a: seq<string>, b: seq<string>, g: Globals)
    requires Ready(g)
    ensures Join(Elements(a, g)) == Join(Elements(b, g)) <==>
            |a| == |b| && forall i :: 0 <= i < |a| ==> SameName(a[i], b[i], g)
  {
    hide Element, Canonical, SameName;
    if Join(Elements(a, g)) == Join(Elements(b, g)) {
      ScanJoined(a, g);
      ScanJoined(b, g);
      hide Scan;
      assert Canonicals(a, g) == Canonicals(b, g);
      forall i | 0 <= i < |a|
        ensures SameName(a[i], b[i], g)
      {
        assert Canonicals(a, g)[i] == Canonicals(b, g)[i];
        CanonicalSame(a[i], b[i], g);
      }
    }
    if |a| == |b| && forall i :: 0 <= i < |a| ==> SameName(a[i], b[i], g) {
      forall i | 0 <= i < |a|
        ensures Element(a[i], g) == Element(b[i], g)
      {
        CanonicalSame(a[i], b[i], g);
      }
      assert Elements(a, g) == Elements(b, g);
    }
  }

  // ----- absolute IDs -----

  /** An object below the root board; its ID is its printed name. */
  datatype Object = Root | Child(parent: Object, name: string)

  function ID(o: Object, g: Globals): string {
    if o.Root? then "" else Element(o.name, g)
  }

  /** Joins the IDs on the way from the root naively on a dot. */
  function AbsID(o: Object, g: Globals): string {
    if o.Child? && ID(o.parent, g) != "" then AbsID(o.parent, g) + "." + ID(o, g) else ID(o, g)
  }

  function Names(o: Object): seq<string> {
    if o.Root? then [] else Names(o.parent) + [o.name]
  }

  lemma {:induction false} AbsIDIsKeyPath(o: Object, g: Globals)
    requires Ready(g)
    ensures AbsID(o, g) == Join(Elements(Names(o), g))
  {
    if o.Child? {
      AbsIDIsKeyPath(o.parent, g);
      JoinAppend(Elements(Names(o.parent), g), Element(o.name, g));
      assert Elements(Names(o), g) == Elements(Names(o.parent), g) + [Element(o.name, g)];
      if o.parent.Child? {
        ScanPrinted(o.parent.name, "", g);
      }
    }
  }

  /** Absolute IDs identify objects by their names, whatever dots, quotes, backslashes or newlines those contain. */
  lemma AbsIDsIdentify(o: Object, p: Object, g: Globals)
    requires Ready(g)
    ensures AbsID(o, g) == AbsID(p, g) <==>
            |Names(o)| == |Names(p)| && forall i :: 0 <= i < |Names(o)| ==> SameName(Names(o)[i], Names(p)[i], g)
  {
    AbsIDIsKeyPath(o, g);
    AbsIDIsKeyPath(p, g);
    PrintedAlike(Names(o), Names(p), g);
  }
}
