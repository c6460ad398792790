/**
 Printing key paths: the fast path of FormatKeyPath, the general printer behind it, and a scanner that reads the
 printed text back. Strings are ASCII. The sets of special characters and reserved keywords are package variables
 in d2, so they are parameters here, and STANDARD holds their usual values.
 */
module KeyPath {

  datatype Globals = Globals(specials: string, reserved: set<string>)

  const SPECIALS := "#;\n\\{}[]'\"|:.-<>*&()@&"

  const SIMPLE_KEYWORDS: set<string> := {
    "label", "shape", "icon", "constraint", "tooltip", "link", "near", "width", "height", "direction", "top",
    "left", "grid-rows", "grid-columns", "grid-gap", "vertical-gap", "horizontal-gap", "class", "vars"
  }

  const STYLE_KEYWORDS: set<string> := {
    "opacity", "stroke", "fill", "fill-pattern", "stroke-width", "stroke-dash", "border-radius", "font",
    "font-size", "font-color", "bold", "italic", "underline", "text-transform", "shadow", "multiple",
    "double-border", "3d", "animated", "filled"
  }

  const COMPOSITE_KEYWORDS: set<string> := {
    "style", "source-arrowhead", "target-arrowhead", "classes", "constraint", "label", "icon", "tooltip", "layers",
    "scenarios", "steps"
  }

  const RESERVED := SIMPLE_KEYWORDS + STYLE_KEYWORDS + COMPOSITE_KEYWORDS

  const STANDARD := Globals(SPECIALS, RESERVED)

  /** A string node without interpolation. */
  datatype Str = Unquoted(text: string) | DoubleQuoted(text: string) | SingleQuoted(text: string)

  // ----- characters -----

  function LowerChar(c: char): char {
    if 'A' <= c <= 'Z' then c - 'A' + 'a' else c
  }

  function Lower(s: string): (r: string)
    ensures |r| == |s|
  {
    seq(|s|, i requires 0 <= i < |s| => LowerChar(s[i]))
  }

  function UpperChar(c: char): char {
    if 'a' <= c <= 'z' then c - 'a' + 'A' else c
  }

  function Upper(s: string): (r: string)
    ensures |r| == |s|
  {
    seq(|s|, i requires 0 <= i < |s| => UpperChar(s[i]))
  }

  predicate EqualFold(s: string, t: string) {
    Lower(s) == Lower(t)
  }

  predicate IsPlainChar(c: char) {
    'a' <= c <= 'z' || 'A' <= c <= 'Z' || '0' <= c <= '9' || c == '_'
  }

  predicate IsSpace(c: char) {
    c == ' ' || '\t' <= c <= '\r'
  }

  // ----- which form a string takes -----

  /** A hyphen is special only before another hyphen or at the end. */
  predicate SpecialAt(s: string, i: nat, g: Globals)
    requires i < |s|
  {
    !(s[i] == '-' && i + 1 < |s| && s[i + 1] != '-') && s[i] in g.specials
  }

  predicate NeedsQuotes(s: string, g: Globals) {
    exists i :: 0 <= i < |s| && SpecialAt(s, i, g)
  }

  function Form(s: string, g: Globals): Str {
    if s == "" then DoubleQuoted(s)
    else if NeedsQuotes(s, g) then
      if '"' !in s || '\n' in s then DoubleQuoted(s) else SingleQuoted(s)
    else if IsSpace(s[0]) || IsSpace(s[|s| - 1]) then DoubleQuoted(s)
    else Unquoted(s)
  }

  // ----- escaping -----

  function SingleChar(c: char): string {
    if c == '\'' then "''" else if c == '\n' then "\\n" else [c]
  }

  function EscapeSingle(s: string): string {
    if s == "" then "" else EscapeSingle(s[..|s| - 1]) + SingleChar(s[|s| - 1])
  }

  function DoubleChar(c: char): string {
    if c == '"' || c == '\\' then ['\\', c] else if c == '\n' then "\\n" else [c]
  }

  function EscapeDouble(s: string): string {
    if s == "" then "" else EscapeDouble(s[..|s| - 1]) + DoubleChar(s[|s| - 1])
  }

  predicate BackslashAt(s: string, i: nat, g: Globals)
    requires i < |s|
  {
    if s[i] in "'\"|" then i == 0
    else if s[i] == '-' then i + 1 < |s| && s[i + 1] == '-'
    else if s[i] == '&' then i == 0
    else s[i] in g.specials
  }

  function BareChar(s: string, i: nat, g: Globals): string
    requires i < |s|
  {
    if s[i] == '\n' then "\\n" else if BackslashAt(s, i, g) then ['\\', s[i]] else [s[i]]
  }

  // The first n characters escaped.
  function EscapeBareTo(s: string, n: nat, g: Globals): string
    requires n <= |s|
  {
    if n == 0 then "" else EscapeBareTo(s, n - 1, g) + BareChar(s, n - 1, g)
  }

  function EscapeBare(s: string, g: Globals): string {
    if s == "" then "\"\"" else if EqualFold(s, "null") then "'null'" else EscapeBareTo(s, |s|, g)
  }

  /** The general printer's text of a string node inside a key. */
  function Text(n: Str, g: Globals): string {
    match n
    case DoubleQuoted(s) => "\"" + EscapeDouble(s) + "\""
    case SingleQuoted(s) => "'" + EscapeSingle(s) + "'"
    case Unquoted(s) =>
      var raw := EscapeBare(s, g);
      if Lower(raw) in g.reserved then Lower(raw) else raw
  }

  function Element(s: string, g: Globals): string {
    Text(Form(s, g), g)
  }

  function Elements(a: seq<string>, g: Globals): (r: seq<string>)
    ensures |r| == |a|
  {
    seq(|a|, i requires 0 <= i < |a| => Element(a[i], g))
  }

  function Join(parts: seq<string>): string {
    if parts == [] then ""
    else if |parts| == 1 then parts[0]
    else parts[0] + "." + Join(parts[1..])
  }

  lemma {:induction false} JoinAppend(parts: seq<string>, last: string)
    ensures Join(parts + [last]) == if parts == [] then last else Join(parts) + "." + last
  {
    if |parts| > 1 {
      JoinAppend(parts[1..], last);
      assert (parts + [last])[1..] == parts[1..] + [last];
    } else if |parts| == 1 {
      assert (parts + [last])[1..] == [last];
    }
  }

  /** What makes a key need quotes: a special character other than a hyphen before something else. */
  lemma SpecialMeans(s: string, g: Globals)
    ensures NeedsQuotes(s, g) <==>
              exists i :: 0 <= i < |s| && s[i] in g.specials && (s[i] == '-' ==> s[i..] == "-" || "--" <= s[i..])
  {
    forall i | 0 <= i < |s|
      ensures SpecialAt(s, i, g) <==> s[i] in g.specials && (s[i] == '-' ==> s[i..] == "-" || "--" <= s[i..])
    {
      SpecialIs(s, i, g);
    }
  }

  lemma SpecialIs(s: string, i: nat, g: Globals)
    requires i < |s|
    ensures SpecialAt(s, i, g) <==> s[i] in g.specials && (s[i] == '-' ==> s[i..] == "-" || "--" <= s[i..])
  {
    var rest := s[i..];
    assert rest[0] == s[i];
    if i + 1 < |s| {
      assert rest[1] == s[i + 1];
    }
  }

  // ----- the printer as it runs -----

  /** The node holds the string as it is; the quotes it gets are the code's choice for it. */
  method RawString(s: string, g: Globals) returns (n: Str)
    ensures n == Form(s, g) && n.text == s
    ensures n.Unquoted? <==>
              && s != "" && !IsSpace(s[0]) && !IsSpace(s[|s| - 1])
              && !exists i :: 0 <= i < |s| && s[i] in g.specials && (s[i] == '-' ==> s[i..] == "-" || "--" <= s[i..])
    ensures n.SingleQuoted? <==>
              && '"' in s && '\n' !in s
              && exists i :: 0 <= i < |s| && s[i] in g.specials && (s[i] == '-' ==> s[i..] == "-" || "--" <= s[i..])
  {
    SpecialMeans(s, g);
    if s == "" {
      return DoubleQuoted(s);
    }
    for i := 0 to |s|
      invariant forall k :: 0 <= k < i ==> !SpecialAt(s, k, g)
    {
      if s[i] == '-' && i + 1 < |s| && s[i + 1] != '-' {
        continue;
      }
      if s[i] in g.specials {
        assert SpecialAt(s, i, g);
        if '"' !in s {
          return DoubleQuoted(s);
        }
        if '\n' in s {
          return DoubleQuoted(s);
        }
        return SingleQuoted(s);
      }
    }
    if IsSpace(s[0]) || IsSpace(s[|s| - 1]) {
      return DoubleQuoted(s);
    }
    return Unquoted(s);
  }

  method EscapeSingleQuotedValue(s: string) returns (b: string)
    ensures b == EscapeSingle(s)
  {
    b := "";
    for i := 0 to |s|
      invariant b == EscapeSingle(s[..i])
    {
      assert s[..i + 1][..i] == s[..i];
      if s[i] == '\'' {
        b := b + ['\''];
      } else if s[i] == '\n' {
        b := b + ['\\'];
        b := b + ['n'];
        continue;
      }
      b := b + [s[i]];
    }
    assert s[..|s|] == s;
  }

  method EscapeDoubleQuotedValue(s: string) returns (b: string)
    ensures b == EscapeDouble(s)
  {
    b := "";
    for i := 0 to |s|
      invariant b == EscapeDouble(s[..i])
    {
      assert s[..i + 1][..i] == s[..i];
      if s[i] == '"' || s[i] == '\\' {
        b := b + ['\\'];
      } else if s[i] == '\n' {
        b := b + ['\\'];
        b := b + ['n'];
        continue;
      }
      b := b + [s[i]];
    }
    assert s[..|s|] == s;
  }

  method EscapeUnquotedValue(s: string, g: Globals) returns (b: string)
    ensures b == EscapeBare(s, g)
  {
    if |s| == 0 {
      return "\"\"";
    }
    if EqualFold(s, "null") {
      return "'null'";
    }
    b := "";
    for i := 0 to |s|
      invariant b == EscapeBareTo(s, i, g)
    {
      ghost var before := b;
      if s[i] in "'\"|" {
        if i == 0 {
          b := b + ['\\'];
        }
      } else if s[i] == '\n' {
        b := b + ['\\'];
        b := b + ['n'];
        assert b == before + BareChar(s, i, g);
        continue;
      } else if s[i] == '-' {
        if i + 1 < |s| && s[i + 1] == '-' {
          b := b + ['\\'];
        }
      } else if s[i] == '&' {
        if i == 0 {
          b := b + ['\\'];
        }
      } else if s[i] in g.specials {
        b := b + ['\\'];
      }
      b := b + [s[i]];
      assert b == before + BareChar(s, i, g);
    }
  }

  method PlainKey(s: string) returns (plain: bool)
    ensures plain <==> s != "" && forall i :: 0 <= i < |s| ==> IsPlainChar(s[i])
  {
    if s == "" {
      return false;
    }
    for i := 0 to |s|
      invariant forall k :: 0 <= k < i ==> IsPlainChar(s[k])
    {
      if !IsPlainChar(s[i]) {
        return false;
      }
    }
    return true;
  }

  class Printer {
    var sb: string
    const g: Globals

    constructor (g: Globals)
      ensures sb == "" && this.g == g
    {
      sb := "";
      this.g := g;
    }

    method Node(n: Str)
      modifies this
      ensures sb == old(sb) + Text(n, g)
    {
      match n
      case DoubleQuoted(s) =>
        sb := sb + "\"";
        var b := EscapeDoubleQuotedValue(s);
        sb := sb + b;
        sb := sb + "\"";
      case SingleQuoted(s) =>
        sb := sb + "'";
        var b := EscapeSingleQuotedValue(s);
        sb := sb + b;
        sb := sb + "'";
      case Unquoted(s) =>
        var raw := EscapeUnquotedValue(s, g);
        if Lower(raw) in g.reserved {
          raw := Lower(raw);
        }
        sb := sb + raw;
    }

    /** The general printer on a key path. */
    method Path(els: seq<Str>)
      requires sb == ""
      modifies this
      ensures sb == Join(Texts(els, g))
    {
      hide Text, Texts, Join;
      NothingJoined(els, g);
      for i := 0 to |els|
        invariant sb == Join(Texts(els[..i], g)) + (if 0 < i < |els| then "." else "")
      {
        Node(els[i]);
        JoinNext(els, i, g);
        if i < |els| - 1 {
          sb := sb + ".";
        }
      }
      assert els[..|els|] == els;
    }
  }

  function Texts(els: seq<Str>, g: Globals): (r: seq<string>)
    ensures |r| == |els|
  {
    seq(|els|, i requires 0 <= i < |els| => Text(els[i], g))
  }

  lemma NothingJoined(els: seq<Str>, g: Globals)
    ensures Join(Texts(els[..0], g)) == ""
  {
  }

  lemma JoinNext(els: seq<Str>, i: nat, g: Globals)
    requires i < |els|
    ensures Join(Texts(els[..i + 1], g)) ==
            Join(Texts(els[..i], g)) + (if 0 < i then "." else "") + Text(els[i], g)
  {
    hide Text;
    JoinAppend(Texts(els[..i], g), Text(els[i], g));
    assert Texts(els[..i + 1], g) == Texts(els[..i], g) + [Text(els[i], g)];
  }

  /** MakeKeyPathString followed by the general printer. */
  method FormatGeneral(a: seq<string>, g: Globals) returns (s: string)
    ensures s == Join(Elements(a, g))
  {
    var path: seq<Str> := [];
    for i := 0 to |a|
      invariant |path| == i && forall k :: 0 <= k < i ==> path[k] == Form(a[k], g)
    {
      var n := RawString(a[i], g);
      path := path + [n];
    }
    assert Texts(path, g) == Elements(a, g);
    var p := new Printer(g);
    p.Path(path);
    return p.sb;
  }

  lemma {:induction false} PlainIsBare(s: string, n: nat, g: Globals)
    requires n <= |s| && (forall k :: 0 <= k < |s| ==> IsPlainChar(s[k]) && s[k] !in g.specials)
    ensures EscapeBareTo(s, n, g) == s[..n]
  {
    if n > 0 {
      PlainIsBare(s, n - 1, g);
    }
  }

  /** A plain string without specials is printed bare, except for null and for the case of reserved keywords. */
  lemma PlainElement(s: string, g: Globals)
    requires s != "" && forall k :: 0 <= k < |s| ==> IsPlainChar(s[k]) && s[k] !in g.specials
    ensures Element(s, g) == if Lower(s) == "null" then "'null'" else if Lower(s) in g.reserved then Lower(s) else s
  {
    assert Lower("null") == "null" && Lower("'null'") == "'null'";
    assert Form(s, g) == Unquoted(s);
    PlainIsBare(s, |s|, g);
    assert s[..|s|] == s;
  }

  /** The fast path prints what the general printer prints, whatever the callers made of the two package variables. */
  method FormatKeyPath(a: seq<string>, g: Globals) returns (s: string)
    ensures s == Join(Elements(a, g))
  {
    hide Element;
    var p := new Printer(g);
    for i := 0 to |a|
      invariant p.sb == Join(Elements(a[..i], g)) && fresh(p)
    {
      JoinAppend(Elements(a[..i], g), Element(a[i], g));
      assert Elements(a[..i + 1], g) == Elements(a[..i], g) + [Element(a[i], g)];
      if i > 0 {
        p.sb := p.sb + ".";
      }
      WriteElement(p, a[i]);
    }
    assert a[..|a|] == a;
    return p.sb;
  }

  method WriteElement(p: Printer, value: string)
    modifies p
    ensures p.sb == old(p.sb) + Element(value, p.g)
  {
    var plain := PlainKey(value);
    if plain && forall k :: 0 <= k < |value| ==> value[k] !in p.g.specials {
      PlainElement(value, p.g);
      hide Element;
      var lower := Lower(value);
      if lower == "null" {
        p.sb := p.sb + "'null'";
      } else if lower in p.g.reserved {
        p.sb := p.sb + lower;
      } else {
        p.sb := p.sb + value;
      }
    } else {
      var n := RawString(value, p.g);
      p.Node(n);
    }
  }
}
