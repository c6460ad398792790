/** The byte signature of a board's layout inputs: written piece by piece, and uniquely decodable. */
module LayoutSignature {
  import opened Bytes
  import opened Options

  const WORD_LIMIT := 0x1_0000_0000_0000_0000

  type Word = w: nat | w < WORD_LIMIT
  type Int64 = i: int | -0x8000_0000_0000_0000 <= i < 0x8000_0000_0000_0000

  /** A string is its bytes, and no longer than memory allows. */
  type Text = s: seq<byte> | |s| < 0x8000_0000_0000_0000 witness []

  /** A float is its bits. */
  type Float = Word

  /** Layout inputs as a tree, and the shape such a tree has. */
  datatype Value =
    | Flag(on: bool)
    | Number(word: Word)
    | Bytes(text: Text)
    | Maybe(value: Option<Value>)
    | List(items: seq<Value>)
    | Record(fields: seq<Value>)

  datatype Shape = AFlag | ANumber | SomeBytes | AMaybe(shape: Shape) | AList(shape: Shape)
                 | ARecord(shapes: seq<Shape>)

  predicate Fits(v: Value, t: Shape) {
    match t
    case AFlag => v.Flag?
    case ANumber => v.Number?
    case SomeBytes => v.Bytes?
    case AMaybe(u) => v.Maybe? && (v.value.Some? ==> Fits(v.value.value, u))
    case AList(u) => v.List? && |v.items| < WORD_LIMIT && forall i :: 0 <= i < |v.items| ==> Fits(v.items[i], u)
    case ARecord(us) => v.Record? && |v.fields| == |us| && forall i :: 0 <= i < |us| ==> Fits(v.fields[i], us[i])
  }

  // ----- bytes -----

  /** The n low bytes of a number, lowest first. */
  function Little(w: nat, n: nat): (r: seq<byte>)
    ensures |r| == n
  {
    if n == 0 then [] else [(w % 256) as byte] + Little(w / 256, n - 1)
  }

  function Power(n: nat): (r: nat)
    ensures r > 0
  {
    if n == 0 then 1 else 256 * Power(n - 1)
  }

  lemma {:induction false} LittleInjective(w: nat, x: nat, n: nat)
    requires w < Power(n) && x < Power(n) && Little(w, n) == Little(x, n)
    ensures w == x
  {
    if n > 0 {
      var a, b := Little(w, n), Little(x, n);
      assert a[0] == b[0] && a[1..] == Little(w / 256, n - 1) && b[1..] == Little(x / 256, n - 1);
      assert w / 256 < Power(n - 1) && x / 256 < Power(n - 1);
      LittleInjective(w / 256, x / 256, n - 1);
    }
  }

  lemma PowerEight()
    ensures Power(8) == WORD_LIMIT
  {
    assert Power(1) == 256 && Power(2) == 0x1_0000 && Power(3) == 0x100_0000 && Power(4) == 0x1_0000_0000;
    assert Power(5) == 0x100_0000_0000 && Power(6) == 0x1_0000_0000_0000 && Power(7) == 0x100_0000_0000_0000;
  }

  function WordBytes(w: Word): seq<byte> {
    Little(w, 8)
  }

  /** Conversion to an unsigned word wraps negative numbers around. */
  function IntWord(i: Int64): Word {
    if i < 0 then i + WORD_LIMIT else i
  }

  function Length(n: nat): Word {
    n % WORD_LIMIT
  }

  function Encode(v: Value): seq<byte>
    decreases v
  {
    match v
    case Flag(on) => [if on then 1 else 0]
    case Number(w) => WordBytes(w)
    case Bytes(text) => WordBytes(|text|) + text
    case Maybe(None) => [0]
    case Maybe(Some(u)) => [1] + Encode(u)
    case List(items) => WordBytes(Length(|items|)) + EncodeAll(items)
    case Record(fields) => EncodeAll(fields)
  }

  function EncodeAll(vs: seq<Value>): seq<byte>
    decreases vs
  {
    if vs == [] then [] else Encode(vs[0]) + EncodeAll(vs[1..])
  }

  // ----- unique decoding -----

  lemma Cancel(a: seq<byte>, b: seq<byte>, s: seq<byte>, t: seq<byte>)
    requires a + s == b + t && |a| == |b|
    ensures a == b && s == t
  {
    assert (a + s)[..|a|] == a && (b + t)[..|b|] == b;
    assert (a + s)[|a|..] == s && (b + t)[|b|..] == t;
  }

  lemma Assoc(a: seq<byte>, b: seq<byte>, c: seq<byte>)
    ensures a + (b + c) == a + b + c
  {
  }

  lemma WordsAgree(w: Word, x: Word, s: seq<byte>, t: seq<byte>)
    requires WordBytes(w) + s == WordBytes(x) + t
    ensures w == x && s == t
  {
    Cancel(WordBytes(w), WordBytes(x), s, t);
    PowerEight();
    LittleInjective(w, x, 8);
  }

  /** Two values of one shape whose encodings start one text are the same value, and leave the same rest. */
  lemma {:induction false} Decodable(v: Value, w: Value, t: Shape, s: seq<byte>, r: seq<byte>)
    requires Fits(v, t) && Fits(w, t) && Encode(v) + s == Encode(w) + r
    ensures v == w && s == r
    decreases v, 1
  {
    hide WordBytes, Little;
    match t
    case AFlag =>
      Cancel(Encode(v), Encode(w), s, r);
    case ANumber =>
      WordsAgree(v.word, w.word, s, r);
    case SomeBytes =>
      BytesAgree(v.text, w.text, s, r);
    case AMaybe(u) =>
      MaybeTag(v, w, s, r);
      if v.value.Some? {
        Decodable(v.value.value, w.value.value, u, s, r);
      }
    case AList(u) =>
      ListTag(v, w, s, r);
      AllDecodable(v.items, w.items, seq(|v.items|, i => u), s, r);
    case ARecord(us) =>
      AllDecodable(v.fields, w.fields, us, s, r);
  }

  lemma BytesAgree(a: Text, b: Text, s: seq<byte>, r: seq<byte>)
    requires WordBytes(|a|) + a + s == WordBytes(|b|) + b + r
    ensures a == b && s == r
  {
    hide WordBytes;
    Assoc(WordBytes(|a|), a, s);
    Assoc(WordBytes(|b|), b, r);
    WordsAgree(|a|, |b|, a + s, b + r);
    Cancel(a, b, s, r);
  }

  lemma MaybeTag(v: Value, w: Value, s: seq<byte>, r: seq<byte>)
    requires v.Maybe? && w.Maybe? && Encode(v) + s == Encode(w) + r
    ensures v.value.Some? == w.value.Some?
    ensures if v.value.Some? then Encode(v.value.value) + s == Encode(w.value.value) + r else s == r
  {
    hide WordBytes;
    var a, b := Encode(v) + s, Encode(w) + r;
    assert a[0] == b[0];
    assert a[1..] == if v.value.Some? then Encode(v.value.value) + s else s;
    assert b[1..] == if w.value.Some? then Encode(w.value.value) + r else r;
  }

  lemma ListTag(v: Value, w: Value, s: seq<byte>, r: seq<byte>)
    requires v.List? && w.List? && |v.items| < WORD_LIMIT && |w.items| < WORD_LIMIT && Encode(v) + s == Encode(w) + r
    ensures |v.items| == |w.items| && EncodeAll(v.items) + s == EncodeAll(w.items) + r
  {
    hide WordBytes, EncodeAll;
    Assoc(WordBytes(|v.items|), EncodeAll(v.items), s);
    Assoc(WordBytes(|w.items|), EncodeAll(w.items), r);
    WordsAgree(|v.items|, |w.items|, EncodeAll(v.items) + s, EncodeAll(w.items) + r);
  }

  lemma {:induction false} AllDecodable(vs: seq<Value>, ws: seq<Value>, ts: seq<Shape>, s: seq<byte>, r: seq<byte>)
    requires |vs| == |ws| == |ts| && EncodeAll(vs) + s == EncodeAll(ws) + r
    requires forall i :: 0 <= i < |ts| ==> Fits(vs[i], ts[i]) && Fits(ws[i], ts[i])
    ensures vs == ws && s == r
    decreases vs, 0
  {
    hide Encode, Fits;
    if vs == [] {
      assert [] + s == s && [] + r == r;
    } else {
      Assoc(Encode(vs[0]), EncodeAll(vs[1..]), s);
      Assoc(Encode(ws[0]), EncodeAll(ws[1..]), r);
      Decodable(vs[0], ws[0], ts[0], EncodeAll(vs[1..]) + s, EncodeAll(ws[1..]) + r);
      AllDecodable(vs[1..], ws[1..], ts[1..], s, r);
      assert vs == [vs[0]] + vs[1..] && ws == [ws[0]] + ws[1..];
    }
  }

  /** Equal signatures of one shape come from equal inputs. */
  lemma SignatureDetermines(v: Value, w: Value, t: Shape)
    requires Fits(v, t) && Fits(w, t) && Encode(v) == Encode(w)
    ensures v == w
  {
    hide Encode, Fits;
    assert Encode(v) + [] == Encode(w) + [];
    Decodable(v, w, t, [], []);
  }

  lemma {:induction false} EncodeAppend(vs: seq<Value>, v: Value)
    ensures EncodeAll(vs + [v]) == EncodeAll(vs) + Encode(v)
  {
    hide Encode;
    if vs == [] {
      assert [] + [v] == [v];
      assert EncodeAll([v]) == Encode(v) + EncodeAll([]);
    } else {
      EncodeAppend(vs[1..], v);
      assert (vs + [v])[1..] == vs[1..] + [v];
    }
  }

  lemma {:induction false} EncodeConcat(vs: seq<Value>, ws: seq<Value>)
    ensures EncodeAll(vs + ws) == EncodeAll(vs) + EncodeAll(ws)
  {
    hide Encode;
    if vs == [] {
      assert [] + ws == ws;
    } else {
      EncodeConcat(vs[1..], ws);
      assert (vs + ws)[1..] == vs[1..] + ws;
    }
  }

  /** Parts written one after the other are the whole they make up. */
  lemma Regroup(before: seq<Value>, parts: seq<Value>, whole: Value)
    requires EncodeAll(parts) == Encode(whole)
    ensures EncodeAll(before + parts) == EncodeAll(before + [whole])
  {
    hide Encode;
    EncodeConcat(before, parts);
    EncodeAppend(before, whole);
  }

  lemma EncodeOne(v: Value)
    ensures EncodeAll([v]) == Encode(v)
  {
    hide Encode;
    assert [v][1..] == [];
  }

  lemma MaybeParts(v: Option<Value>)
    ensures EncodeAll(if v.Some? then [Flag(true), v.value] else [Flag(false)]) == Encode(Maybe(v))
  {
    EncodeAppend([], Flag(v.Some?));
    if v.Some? {
      EncodeAppend([Flag(true)], v.value);
    }
  }

  lemma ListBytes(items: seq<Value>)
    requires |items| < WORD_LIMIT
    ensures Encode(Number(|items|)) + EncodeAll(items) == Encode(List(items))
  {
    hide WordBytes, EncodeAll;
  }

  lemma ListParts(items: seq<Value>)
    requires |items| < WORD_LIMIT
    ensures EncodeAll([Number(|items|)] + items) == Encode(List(items))
  {
    hide Encode, EncodeAll;
    EncodeConcat([Number(|items|)], items);
    EncodeOne(Number(|items|));
    ListBytes(items);
  }
}
