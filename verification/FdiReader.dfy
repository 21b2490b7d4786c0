/** What the function description of a train says.  The reader here knows the layout of the text and
    nothing of how it was made: it takes marks, words and digits off the front. */
module FdiReader {
  import opened Wrappers
  import opened FdiXml

  datatype Item = Item(number: nat, momentary: bool, name: string)

  // ----- Reading text -----

  /** The text behind an expected mark. */
  function Expect(s: string, mark: string): (r: Option<string>)
    ensures r.Some? ==> |r.value| + |mark| == |s|
  {
    if mark <= s then Some(s[|mark|..]) else None
  }

  /** How many characters stand before the first c. */
  function Upto(s: string, c: char): (k: nat)
    ensures k <= |s|
  {
    if s == "" || s[0] == c then 0 else 1 + Upto(s[1..], c)
  }

  predicate IsDigit(c: char) { '0' <= c <= '9' }

  predicate AllDigits(s: string) { forall k | 0 <= k < |s| :: IsDigit(s[k]) }

  /** Digits read from the left, on top of what has been read. */
  function ReadNumber(s: string, sofar: nat): nat
    requires AllDigits(s)
  {
    if s == "" then sofar else ReadNumber(s[1..], sofar * 10 + (s[0] as int - '0' as int))
  }

  /** Takes an opening mark, everything up to the next c, and a closing mark. */
  function Enclosed(s: string, open: string, c: char, close: string): (r: Option<(string, string)>)
    ensures r.Some? ==> |r.value.0| + |r.value.1| + |open| + |close| == |s|
  {
    match Expect(s, open)
    case None => None
    case Some(s1) =>
      var k := Upto(s1, c);
      match Expect(s1[k..], close)
      case None => None
      case Some(s2) => Some((s1[..k], s2))
  }

  function ReadKind(word: string): Option<bool> {
    if word == "momentary" then Some(true) else if word == "binary" then Some(false) else None
  }

  /** One function element, and the text behind it. */
  function ReadItem(s: string): (r: Option<(Item, string)>)
    ensures r.Some? ==> |r.value.1| < |s|
  {
    match Enclosed(s, "<function size='1' kind='", '\'', "'>\n")
    case None => None
    case Some((kind, s1)) =>
      match Enclosed(s1, "<name>", '<', "</name>\n")
      case None => None
      case Some((name, s2)) =>
        match Enclosed(s2, "<number>", '<', "</number>\n</function>\n")
        case None => None
        case Some((digits, s3)) =>
          if AllDigits(digits) && ReadKind(kind).Some? then
            Some((Item(ReadNumber(digits, 0), ReadKind(kind).value, name), s3))
          else None
  }

  function ReadItems(s: string): Option<seq<Item>>
    decreases |s|
  {
    if s == "</group></segment></fdi>" then Some([])
    else
      match ReadItem(s)
      case None => None
      case Some((item, rest)) =>
        match ReadItems(rest)
        case None => None
        case Some(items) => Some([item] + items)
  }

  function ReadDocument(s: string): Option<seq<Item>> {
    match Expect(s, FDI.head)
    case None => None
    case Some(rest) => ReadItems(rest)
  }

  // ----- What it should say -----

  /** The name of the first label of the same type apart from the momentary bit, or F and the number. */
  ghost predicate Names(name: string, t: FunctionType, fn: nat) {
    || (exists r | 0 <= r < |LABELS| :: FirstLabel(t, r) && name == LABELS[r].text)
    || ((forall r | 0 <= r < |LABELS| :: LABELS[r].fn % MOMENTARY != t % MOMENTARY)
        && name != "" && name[0] == 'F' && Spells(name[1..], fn))
  }

  predicate FirstLabel(t: FunctionType, r: nat)
    requires r < |LABELS|
  {
    LABELS[r].fn % MOMENTARY == t % MOMENTARY && forall k | 0 <= k < r :: LABELS[k].fn % MOMENTARY != t % MOMENTARY
  }

  /** Digits for n, without a leading zero. */
  predicate Spells(digits: string, n: nat) {
    digits != "" && AllDigits(digits) && ReadNumber(digits, 0) == n && (n > 0 ==> digits[0] != '0')
  }

  ghost predicate Listed(items: seq<Item>, k: nat) { exists i | 0 <= i < |items| :: items[i].number == k }

  /** A function has a type in the database entry, and not one of the two that say there is none. */
  predicate Present(e: Entry, k: nat) { k < |e.types| && e.types[k] != 0 && e.types[k] != 255 }

  /** The existing functions of the train from `fn` on, each once and in ascending order. */
  ghost predicate Lists(items: seq<Item>, e: Entry, fn: nat) {
    && (forall i, j | 0 <= i < j < |items| :: items[i].number < items[j].number)
    && (forall i | 0 <= i < |items| :: fn <= items[i].number <= e.maxFn && Present(e, items[i].number))
    && (forall k: nat | fn <= k <= e.maxFn && Present(e, k) :: Listed(items, k))
    && (forall i | 0 <= i < |items| :: Describes(items[i], e.types[items[i].number]))
  }

  /** Bit 7 of the type says whether the function is momentary. */
  ghost predicate Describes(item: Item, t: FunctionType) {
    (item.momentary <==> t / 128 % 2 == 1) && Names(item.name, t, item.number)
  }

  // ----- Numbers -----

  lemma {:induction false} ReadNumberConcat(a: string, b: string, sofar: nat)
    requires AllDigits(a) && AllDigits(b)
    ensures AllDigits(a + b) && ReadNumber(a + b, sofar) == ReadNumber(b, ReadNumber(a, sofar))
    decreases |a|
  {
    if a == "" {
      assert a + b == b;
    } else {
      assert (a + b)[1..] == a[1..] + b;
      ReadNumberConcat(a[1..], b, sofar * 10 + (a[0] as int - '0' as int));
    }
  }

  lemma DigitReads(d: nat)
    requires d < 10
    ensures IsDigit(Digit(d)) && Digit(d) as int - '0' as int == d
  {
  }

  /** Main result: decimal text read from the left gives the number back, without a leading zero. */
  lemma {:induction false} DecimalSpells(n: nat)
    ensures Spells(Decimal(n), n)
  {
    DigitReads(n % 10);
    var last := [Digit(n % 10)];
    assert last[1..] == "";
    if n >= 10 {
      DecimalSpells(n / 10);
      ReadNumberConcat(Decimal(n / 10), last, 0);
      assert ReadNumber(last, n / 10) == ReadNumber(last[1..], n / 10 * 10 + n % 10);
    } else {
      assert Decimal(n) == last;
      assert ReadNumber(last, 0) == ReadNumber(last[1..], n);
    }
  }

  // ----- Marks -----

  lemma ExpectMark(mark: string, rest: string)
    ensures Expect(mark + rest, mark) == Some(rest)
  {
  }

  lemma {:induction false} UptoFirst(a: string, s: string, c: char)
    requires c !in a && s != "" && s[0] == c
    ensures Upto(a + s, c) == |a|
    decreases |a|
  {
    if a == "" {
      assert a + s == s;
    } else {
      assert (a + s)[1..] == a[1..] + s;
      UptoFirst(a[1..], s, c);
    }
  }

  lemma EnclosedText(open: string, text: string, c: char, close: string, rest: string)
    requires c !in text && close != "" && close[0] == c
    ensures Enclosed(open + (text + (close + rest)), open, c, close) == Some((text, rest))
  {
    var s1 := text + (close + rest);
    ExpectMark(open, s1);
    UptoFirst(text, close + rest, c);
    assert s1[|text|..] == close + rest && s1[..|text|] == text;
    ExpectMark(close, rest);
  }

  // ----- The document -----

  lemma {:induction false} LabelIsFirst(t: FunctionType, r: nat)
    requires r <= |LABELS| && forall k | 0 <= k < r :: LABELS[k].fn % MOMENTARY != t % MOMENTARY
    ensures match LabelText(LABELS[r..], t)
            case Some(text) => exists k | 0 <= k < |LABELS| :: FirstLabel(t, k) && text == LABELS[k].text
            case None => forall k | 0 <= k < |LABELS| :: LABELS[k].fn % MOMENTARY != t % MOMENTARY
    decreases |LABELS| - r
  {
    if r < |LABELS| {
      if LABELS[r].fn % MOMENTARY == t % MOMENTARY {
        assert FirstLabel(t, r);
      } else {
        assert LABELS[r..][1..] == LABELS[r + 1..];
        LabelIsFirst(t, r + 1);
      }
    }
  }

  lemma LabelsArePlain(r: nat)
    requires r < |LABELS|
    ensures '<' !in LABELS[r].text
  {
    if r < 6 {
      FirstLabelsArePlain(r);
    } else {
      LaterLabelsArePlain(r);
    }
  }

  lemma FirstLabelsArePlain(r: nat)
    requires r < 6
    ensures '<' !in LABELS[r].text
  {
  }

  lemma LaterLabelsArePlain(r: nat)
    requires 6 <= r < |LABELS|
    ensures '<' !in LABELS[r].text
  {
  }

  function NameText(e: Entry, fn: nat): string {
    match LabelText(LABELS, e.Type(fn)) case Some(text) => text case None => "F" + Decimal(fn)
  }

  lemma NameIsRight(e: Entry, fn: nat)
    ensures Names(NameText(e, fn), e.Type(fn), fn) && '<' !in NameText(e, fn)
  {
    var t := e.Type(fn);
    LabelIsFirst(t, 0);
    assert LABELS[0..] == LABELS;
    DecimalSpells(fn);
    match LabelText(LABELS, t)
    case Some(text) =>
      var r :| 0 <= r < |LABELS| && FirstLabel(t, r) && text == LABELS[r].text;
      LabelsArePlain(r);
    case None =>
      assert NameText(e, fn)[1..] == Decimal(fn);
  }

  function KindWord(e: Entry, fn: nat): string { if e.Type(fn) / 128 % 2 == 1 then "momentary" else "binary" }

  lemma BinaryText()
    ensures FDI.binary == "<function size='1' kind='" + ("binary" + "'>\n")
  {
  }

  lemma MomentaryText()
    ensures FDI.momentary == "<function size='1' kind='" + ("momentary" + "'>\n")
  {
  }

  lemma KindWordIsPlain(e: Entry, fn: nat)
    ensures '\'' !in KindWord(e, fn) && ReadKind(KindWord(e, fn)) == Some(e.Type(fn) / 128 % 2 == 1)
  {
  }

  lemma KindText(e: Entry, fn: nat)
    ensures KindPart(FDI, e, fn) == "<function size='1' kind='" + (KindWord(e, fn) + "'>\n")
    ensures '\'' !in KindWord(e, fn) && ReadKind(KindWord(e, fn)) == Some(e.Type(fn) / 128 % 2 == 1)
  {
    KindWordIsPlain(e, fn);
    if e.Type(fn) >= MOMENTARY {
      MomentaryText();
    } else {
      BinaryText();
    }
  }

  lemma Assoc3(a: string, b: string, c: string, rest: string)
    ensures (a + (b + c)) + rest == a + (b + (c + rest))
  {
  }

  lemma KindReads(e: Entry, fn: nat, rest: string)
    ensures Enclosed(KindPart(FDI, e, fn) + rest, "<function size='1' kind='", '\'', "'>\n") == Some((KindWord(e, fn), rest))
  {
    var open, close := "<function size='1' kind='", "'>\n";
    KindText(e, fn);
    Assoc3(open, KindWord(e, fn), close, rest);
    EnclosedText(open, KindWord(e, fn), '\'', close, rest);
  }

  lemma NameReads(e: Entry, fn: nat, rest: string)
    ensures Enclosed(NamePart(e, fn) + rest, "<name>", '<', "</name>\n") == Some((NameText(e, fn), rest))
  {
    NameIsRight(e, fn);
    assert NamePart(e, fn) == "<name>" + (NameText(e, fn) + "</name>\n");
    Assoc3("<name>", NameText(e, fn), "</name>\n", rest);
    EnclosedText("<name>", NameText(e, fn), '<', "</name>\n", rest);
  }

  lemma NumberReads(fn: nat, rest: string)
    ensures Enclosed(NumberPart(fn) + rest, "<number>", '<', "</number>\n</function>\n") == Some((Decimal(fn), rest))
  {
    var close := "</number>\n</function>\n";
    DecimalSpells(fn);
    NoMarkInDigits(Decimal(fn));
    assert NumberPart(fn) == "<number>" + (Decimal(fn) + close);
    Assoc3("<number>", Decimal(fn), close, rest);
    EnclosedText("<number>", Decimal(fn), '<', close, rest);
  }

  function ItemOf(e: Entry, fn: nat): Item { Item(fn, e.Type(fn) / 128 % 2 == 1, NameText(e, fn)) }

  lemma ElementReads(e: Entry, fn: nat, rest: string)
    ensures ReadItem(Element(FDI, e, fn) + rest) == Some((ItemOf(e, fn), rest))
  {
    var s3 := NumberPart(fn) + rest;
    var s2 := NamePart(e, fn) + s3;
    FdiXml.Assoc(KindPart(FDI, e, fn) + NamePart(e, fn), NumberPart(fn), rest);
    FdiXml.Assoc(KindPart(FDI, e, fn), NamePart(e, fn), s3);
    KindReads(e, fn, s2);
    NameReads(e, fn, s3);
    NumberReads(fn, rest);
    KindText(e, fn);
    DecimalSpells(fn);
  }

  lemma NoMarkInDigits(s: string)
    requires AllDigits(s)
    ensures '<' !in s
  {
  }

  /** The elements from fn on read as the list of the functions from fn on. */
  lemma {:induction false} ElementsRead(e: Entry, fn: nat) returns (items: seq<Item>)
    ensures ReadItems(Elements(FDI, e, fn) + FDI.tail) == Some(items) && Lists(items, e, fn)
    decreases e.maxFn + 1 - fn
  {
    if fn > e.maxFn {
      items := [];
      NothingReads(e, fn);
    } else {
      var later := ElementsRead(e, fn + 1);
      if e.Exists(fn) {
        items := [ItemOf(e, fn)] + later;
        FirstReads(e, fn, later);
        NameIsRight(e, fn);
        AddFirst(ItemOf(e, fn), later, e, fn);
      } else {
        items := later;
        SkippedReads(e, fn, later);
      }
    }
  }

  lemma NothingReads(e: Entry, fn: nat)
    requires fn > e.maxFn
    ensures ReadItems(Elements(FDI, e, fn) + FDI.tail) == Some([])
  {
    assert "" + FDI.tail == FDI.tail;
  }

  lemma SkippedReads(e: Entry, fn: nat, later: seq<Item>)
    requires fn <= e.maxFn && !e.Exists(fn) && Lists(later, e, fn + 1)
    requires ReadItems(Elements(FDI, e, fn + 1) + FDI.tail) == Some(later)
    ensures ReadItems(Elements(FDI, e, fn) + FDI.tail) == Some(later) && Lists(later, e, fn)
  {
    assert "" + Elements(FDI, e, fn + 1) == Elements(FDI, e, fn + 1);
    assert !Present(e, fn);
  }

  lemma FirstReads(e: Entry, fn: nat, later: seq<Item>)
    requires fn <= e.maxFn && e.Exists(fn) && ReadItems(Elements(FDI, e, fn + 1) + FDI.tail) == Some(later)
    ensures ReadItems(Elements(FDI, e, fn) + FDI.tail) == Some([ItemOf(e, fn)] + later)
  {
    var rest := Elements(FDI, e, fn + 1) + FDI.tail;
    FdiXml.Assoc(Element(FDI, e, fn), Elements(FDI, e, fn + 1), FDI.tail);
    ElementReads(e, fn, rest);
    NotTheTail(e, fn, rest);
  }

  lemma NotTheTail(e: Entry, fn: nat, rest: string)
    ensures Element(FDI, e, fn) + rest != "</group></segment></fdi>"
  {
    KindText(e, fn);
    assert (Element(FDI, e, fn) + rest)[1] == KindPart(FDI, e, fn)[1] == 'f';
  }

  lemma AddFirst(item: Item, later: seq<Item>, e: Entry, fn: nat)
    requires Lists(later, e, fn + 1) && item.number == fn <= e.maxFn && Present(e, fn) && Describes(item, e.types[fn])
    ensures Lists([item] + later, e, fn)
  {
    var items := [item] + later;
    forall k: nat | fn <= k <= e.maxFn && Present(e, k) ensures Listed(items, k) {
      if k == fn {
        assert items[0].number == k;
      } else {
        assert Listed(later, k);
        var i :| 0 <= i < |later| && later[i].number == k;
        assert items[i + 1].number == k;
      }
    }
  }

  /** Main result: a reader of the document finds exactly the existing functions of the train, in
      ascending order, each with its number, its kind and its name. */
  lemma DocumentReads(e: Entry) returns (items: seq<Item>)
    ensures ReadDocument(Document(FDI, e)) == Some(items) && Lists(items, e, 0)
  {
    items := ElementsRead(e, 0);
    ExpectMark(FDI.head, Elements(FDI, e, 0) + FDI.tail);
  }

  /** The same for a document fetched in pieces of any sizes that reach its end. */
  lemma FetchedDocumentReads(e: Entry, lens: seq<nat>) returns (items: seq<Item>)
    requires Total(lens) >= |Document(FDI, e)|
    ensures ReadDocument(Chunks(Document(FDI, e), 0, lens)) == Some(items) && Lists(items, e, 0)
  {
    var doc := Document(FDI, e);
    items := DocumentReads(e);
    ChunksAreSlice(doc, 0, lens);
    assert Slice(doc, 0, Total(lens)) == doc[0..|doc|] == doc;
  }
}
