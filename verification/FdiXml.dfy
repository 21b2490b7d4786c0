/** The function description of a train, generated on the fly: the generator keeps only the
    pieces of text of one step, yet reads at any offset give the bytes of the whole document. */
module FdiXml {
  import opened Wrappers

  // ----- The train's functions -----

  type FunctionType = t: nat | t < 256

  const FN_NONEXISTANT: FunctionType := 0
  const FN_UNINITIALIZED: FunctionType := 255
  const MOMENTARY: nat := 128

  /** maxFn is the largest valid function, -1 if there is none. */
  datatype Entry = Entry(maxFn: int, types: seq<FunctionType>) {
    function Type(fn: nat): FunctionType {
      if fn < |types| then types[fn] else FN_NONEXISTANT
    }

    predicate Exists(fn: nat) {
      Type(fn) != FN_NONEXISTANT && Type(fn) != FN_UNINITIALIZED
    }
  }

  // ----- The text -----

  /** The fixed parts of the document. */
  datatype Wording = Wording(head: string, tail: string, binary: string, momentary: string)

  const FDI: Wording := Wording(
    "<?xml version='1.0' encoding='UTF-8'?>\n<?xml-stylesheet type='text/xsl' href='xslt/fdi.xsl'?>\n<fdi xmlns:xsi='http://www.w3.org/2001/XMLSchema-instance' xsi:noNamespaceSchemaLocation='http://openlcb.org/trunk/prototypes/xml/schema/fdi.xsd'>\n<segment space='249'><group><name/>\n",
    "</group></segment></fdi>",
    "<function size='1' kind='binary'>\n",
    "<function size='1' kind='momentary'>\n")

  datatype Label = Label(fn: FunctionType, text: string)

  const LABELS: seq<Label> := [
    Label(1, "Headlight"), Label(4, "Engine"), Label(134, "Announce"), Label(7, "Shunting Mode"),
    Label(8, "Momentum"), Label(10, "Smoke"), Label(11, "Pantograph"), Label(12, "Far Light"),
    Label(13, "Bell"), Label(142, "Horn"), Label(143, "Whistle"), Label(74, "Light"), Label(137, "Uncouple")]

  /** The first label of the same type, momentary or not. */
  function LabelText(labels: seq<Label>, t: FunctionType): Option<string> {
    if labels == [] then None
    else if labels[0].fn % MOMENTARY == t % MOMENTARY then Some(labels[0].text)
    else LabelText(labels[1..], t)
  }

  function Digit(d: nat): char
    requires d < 10
  {
    ['0', '1', '2', '3', '4', '5', '6', '7', '8', '9'][d]
  }

  function Decimal(n: nat): string {
    if n < 10 then [Digit(n)] else Decimal(n / 10) + [Digit(n % 10)]
  }

  function KindPart(w: Wording, e: Entry, fn: nat): string {
    if e.Type(fn) >= MOMENTARY then w.momentary else w.binary
  }

  function NamePart(e: Entry, fn: nat): string {
    "<name>" + (match LabelText(LABELS, e.Type(fn)) case Some(text) => text case None => "F" + Decimal(fn)) + "</name>\n"
  }

  function NumberPart(fn: nat): string {
    "<number>" + Decimal(fn) + "</number>\n</function>\n"
  }

  function Element(w: Wording, e: Entry, fn: nat): string {
    KindPart(w, e, fn) + NamePart(e, fn) + NumberPart(fn)
  }

  /** One element for every existing function from fn on, in order. */
  function Elements(w: Wording, e: Entry, fn: nat): string
    decreases e.maxFn + 1 - fn
  {
    if fn > e.maxFn then ""
    else (if e.Exists(fn) then Element(w, e, fn) else "") + Elements(w, e, fn + 1)
  }

  function Document(w: Wording, e: Entry): string {
    w.head + (Elements(w, e, 0) + w.tail)
  }

  function Clip(offset: nat, doc: string): (o: nat)
    ensures o <= |doc| && o <= offset
  {
    if offset <= |doc| then offset else |doc|
  }

  /** What a read of len bytes at offset should return: fewer bytes only at the end. */
  function Slice(doc: string, offset: nat, len: nat): string {
    doc[Clip(offset, doc)..Clip(offset + len, doc)]
  }

  // ----- The generator -----

  datatype Action = ConstLiteral(text: string) | RenderInt(value: nat) {
    function Text(): string {
      match this
      case ConstLiteral(text) => text
      case RenderInt(value) => Decimal(value)
    }
  }

  function Texts(actions: seq<Action>): string {
    if actions == [] then "" else actions[0].Text() + Texts(actions[1..])
  }

  function Reversed(actions: seq<Action>): (r: seq<Action>)
    ensures |r| == |actions|
  {
    if actions == [] then [] else Reversed(actions[1..]) + [actions[0]]
  }

  datatype State = XmlHead | StartFn | FnName | FnNumber | FnEnd | NoMoreFn | Eof

  /** The text still to be generated. */
  function Remaining(w: Wording, e: Entry, state: State, fn: nat): string {
    match state
    case XmlHead => w.head + (Elements(w, e, 0) + w.tail)
    case StartFn => Elements(w, e, fn) + w.tail
    case FnName => NamePart(e, fn) + (NumberPart(fn) + (Elements(w, e, fn + 1) + w.tail))
    case FnNumber => NumberPart(fn) + (Elements(w, e, fn + 1) + w.tail)
    case FnEnd => Elements(w, e, fn + 1) + w.tail
    case NoMoreFn => w.tail
    case Eof => ""
  }

  function FunctionsLeft(e: Entry, fn: nat): nat {
    if fn > e.maxFn then 0 else e.maxFn + 1 - fn
  }

  /** A bound on the steps the generator can still take. */
  function StepsLeft(e: Entry, state: State, fn: nat): nat {
    match state
    case XmlHead => 5 * FunctionsLeft(e, 0) + 3
    case StartFn => 5 * FunctionsLeft(e, fn) + 2
    case FnName => 5 * FunctionsLeft(e, fn + 1) + 5
    case FnNumber => 5 * FunctionsLeft(e, fn + 1) + 4
    case FnEnd => 5 * FunctionsLeft(e, fn + 1) + 3
    case NoMoreFn => 1
    case Eof => 0
  }

  lemma TextsOne(a: Action)
    ensures Texts([a]) == a.Text()
  {
    assert [a][1..] == [];
    assert Texts([a]) == a.Text() + "";
  }

  lemma TextsThree(a: Action, b: Action, c: Action)
    ensures Texts([a, b, c]) == a.Text() + (b.Text() + c.Text())
  {
    assert [a, b, c][1..] == [b, c] && [b, c][1..] == [c];
    TextsOne(c);
  }

  lemma TextsFour(a: Action, b: Action, c: Action, d: Action)
    ensures Texts([a, b, c, d]) == a.Text() + (b.Text() + (c.Text() + d.Text()))
  {
    assert [a, b, c, d][1..] == [b, c, d];
    TextsThree(b, c, d);
  }

  class FdiXmlGenerator {
    const wording: Wording
    var entry: Entry
    var state: State
    var nextFunction: nat
    var pending: seq<Action>
    var fileOffset: nat

    constructor (w: Wording, e: Entry)
      ensures Valid() && entry == e && fileOffset == 0 && wording == w
    {
      wording := w;
      entry, state, nextFunction, pending, fileOffset := e, XmlHead, 0, [], 0;
      new;
      StartIsDocument(wording, e);
    }

    /** The rest of the document, from the first byte of the first pending action. */
    ghost predicate Valid()
      reads this
    {
      && fileOffset <= |Document(wording, entry)|
      && Document(wording, entry)[fileOffset..] == Texts(pending) + Remaining(wording, entry, state, nextFunction)
    }

    method Reset(e: Entry)
      modifies this
      ensures Valid() && entry == e && fileOffset == 0
    {
      state := XmlHead;
      entry := e;
      fileOffset := 0;
      pending := [];
      StartIsDocument(wording, e);
    }

    method AddToOutput(a: Action)
      modifies this`pending
      ensures pending == [a] + old(pending)
    {
      pending := [a] + pending;
    }

    /** The label table, scanned until the first match. */
    method LabelForFunction(t: FunctionType) returns (name: Option<string>)
      ensures name == LabelText(LABELS, t)
    {
      var r := 0;
      while r < |LABELS|
        invariant r <= |LABELS|
        invariant LabelText(LABELS, t) == LabelText(LABELS[r..], t)
      {
        if LABELS[r].fn % MOMENTARY == t % MOMENTARY {
          return Some(LABELS[r].text);
        }
        assert LABELS[r..][1..] == LABELS[r + 1..];
        r := r + 1;
      }
      name := None;
    }

    /** The next existing function, if any. */
    method SkipMissing()
      requires state == StartFn
      modifies this`nextFunction
      ensures nextFunction >= old(nextFunction)
      ensures Elements(wording, entry, nextFunction) == Elements(wording, entry, old(nextFunction))
      ensures nextFunction <= entry.maxFn ==> entry.Exists(nextFunction)
      ensures FunctionsLeft(entry, nextFunction) <= FunctionsLeft(entry, old(nextFunction))
    {
      while nextFunction <= entry.maxFn &&
            (entry.Type(nextFunction) == FN_NONEXISTANT || entry.Type(nextFunction) == FN_UNINITIALIZED)
        invariant nextFunction >= old(nextFunction)
        invariant Elements(wording, entry, nextFunction) == Elements(wording, entry, old(nextFunction))
        invariant FunctionsLeft(entry, nextFunction) <= FunctionsLeft(entry, old(nextFunction))
        decreases entry.maxFn + 1 - nextFunction
      {
        nextFunction := nextFunction + 1;
      }
    }

    method OutputName()
      requires state == FnName && pending == []
      modifies this`pending
      ensures Texts(Reversed(pending)) == NamePart(entry, nextFunction) && pending != []
    {
      AddToOutput(ConstLiteral("<name>"));
      var name := LabelForFunction(entry.Type(nextFunction));
      if name.None? {
        AddToOutput(ConstLiteral("F"));
        AddToOutput(RenderInt(nextFunction));
      } else {
        AddToOutput(ConstLiteral(name.value));
      }
      AddToOutput(ConstLiteral("</name>\n"));
      if name.None? {
        ghost var a, b, c, d := ConstLiteral("<name>"), ConstLiteral("F"), RenderInt(nextFunction), ConstLiteral("</name>\n");
        assert pending == [d, c, b, a];
        ReverseFour(d, c, b, a);
        TextsFour(a, b, c, d);
        assert Texts(Reversed(pending)) == "<name>" + ("F" + (Decimal(nextFunction) + "</name>\n"));
      } else {
        ghost var a, b, c := ConstLiteral("<name>"), ConstLiteral(name.value), ConstLiteral("</name>\n");
        assert pending == [c, b, a];
        ReverseThree(c, b, a);
        TextsThree(a, b, c);
        assert Texts(Reversed(pending)) == "<name>" + (name.value + "</name>\n");
      }
    }

    method OutputNumber()
      requires state == FnNumber && pending == []
      modifies this`pending
      ensures Texts(Reversed(pending)) == NumberPart(nextFunction) && pending != []
    {
      AddToOutput(ConstLiteral("<number>"));
      AddToOutput(RenderInt(nextFunction));
      AddToOutput(ConstLiteral("</number>\n</function>\n"));
      ghost var a, b, c := ConstLiteral("<number>"), RenderInt(nextFunction), ConstLiteral("</number>\n</function>\n");
      assert pending == [c, b, a];
      ReverseThree(c, b, a);
      TextsThree(a, b, c);
    }

    method OutputText(text: string)
      requires pending == []
      modifies this`pending
      ensures Texts(Reversed(pending)) == text && pending != []
    {
      AddToOutput(ConstLiteral(text));
      assert pending == [ConstLiteral(text)];
      assert Reversed(pending) == [ConstLiteral(text)];
      TextsOne(ConstLiteral(text));
    }

    /** The opening of an existing function. */
    method StepKind()
      requires state == StartFn && pending == []
      requires nextFunction <= entry.maxFn && entry.Exists(nextFunction)
      modifies this`pending, this`state
      ensures Produced(StartFn, nextFunction)
    {
      if entry.Type(nextFunction) >= MOMENTARY {
        OutputText(wording.momentary);
      } else {
        OutputText(wording.binary);
      }
      state := FnName;
      ElementParts(KindPart(wording, entry, nextFunction), NamePart(entry, nextFunction), NumberPart(nextFunction),
                   Elements(wording, entry, nextFunction + 1), wording.tail);
    }

    /** Actions are pending that continue the document from the given point. */
    ghost predicate Produced(state0: State, fn0: nat)
      reads this
    {
      && pending != []
      && Texts(Reversed(pending)) + Remaining(wording, entry, state, nextFunction) == Remaining(wording, entry, state0, fn0)
      && StepsLeft(entry, state, nextFunction) < StepsLeft(entry, state0, fn0)
    }

    /** The head, before any function. */
    method StepHead()
      requires state == XmlHead && pending == []
      modifies this`pending, this`state, this`nextFunction
      ensures Produced(old(state), old(nextFunction))
    {
      OutputText(wording.head);
      nextFunction := 0;
      state := StartFn;
    }

    /** The name of a function. */
    method StepName()
      requires state == FnName && pending == []
      modifies this`pending, this`state, this`nextFunction
      ensures Produced(old(state), old(nextFunction))
    {
      OutputName();
      state := FnNumber;
    }

    /** The number of a function. */
    method StepNumber()
      requires state == FnNumber && pending == []
      modifies this`pending, this`state, this`nextFunction
      ensures Produced(old(state), old(nextFunction))
    {
      OutputNumber();
      state := FnEnd;
    }

    /** The tail, after all functions. */
    method StepTail()
      requires state == NoMoreFn && pending == []
      modifies this`pending, this`state, this`nextFunction
      ensures Produced(old(state), old(nextFunction))
    {
      OutputText(wording.tail);
      state := Eof;
      assert wording.tail + "" == wording.tail;
    }

    /** One step of the state machine; the actions come out in reverse order. */
    method GenerateMore()
      requires pending == []
      modifies this`state, this`nextFunction, this`pending
      ensures Produced(old(state), old(nextFunction)) || (pending == [] && state == Eof)
      ensures pending == [] ==> Remaining(wording, entry, old(state), old(nextFunction)) == ""
    {
      while true
        invariant pending == []
        invariant Remaining(wording, entry, state, nextFunction) == old(Remaining(wording, entry, state, nextFunction))
        invariant StepsLeft(entry, state, nextFunction) <= old(StepsLeft(entry, state, nextFunction))
        decreases StepsLeft(entry, state, nextFunction)
      {
        match state
        case XmlHead =>
          StepHead();
          return;
        case StartFn =>
          SkipMissing();
          if nextFunction > entry.maxFn {
            state := NoMoreFn;
            continue;
          }
          StepKind();
          return;
        case FnName =>
          StepName();
          return;
        case FnNumber =>
          StepNumber();
          return;
        case FnEnd =>
          nextFunction := nextFunction + 1;
          state := StartFn;
          continue;
        case NoMoreFn =>
          StepTail();
          return;
        case Eof =>
          return;
      }
    }

    /** Turns the reversed actions of one step round. */
    method TurnRound()
      modifies this`pending
      ensures pending == Reversed(old(pending))
    {
      var reversed := [];
      while pending != []
        invariant Reversed(old(pending)) == Reversed(pending) + reversed
        decreases |pending|
      {
        reversed := [pending[0]] + reversed;
        pending := pending[1..];
      }
      pending := reversed;
    }

    /** Skips, then copies from the text of the front action. */
    method CopyFront(text: string, skip: nat, len: nat) returns (copied: string, used: nat, toSkip: nat)
      ensures used <= |text| && toSkip == (if skip >= |text| then skip - |text| else 0)
      ensures if skip >= |text| then copied == "" && used == |text| else copied == Slice(text, skip, len) && used == skip + |copied|
    {
      // Skip data that we don't need.
      used, toSkip := 0, skip;
      while used < |text| && toSkip > 0
        invariant used <= |text| && used + toSkip == skip
      {
        toSkip := toSkip - 1;
        used := used + 1;
      }
      // Copy data from the front action.
      copied := "";
      var left := len;
      ghost var from := used;
      while used < |text| && left > 0
        invariant from <= used <= |text| && used - from + left == len
        invariant copied == text[from..used]
      {
        copied := copied + [text[used]];
        used := used + 1;
        left := left - 1;
      }
    }

    /** Makes sure there is a front action, unless the document has ended. */
    method FillPending() returns (eof: bool)
      requires Valid()
      modifies this`state, this`nextFunction, this`pending
      ensures Valid() && (eof <==> pending == [])
      ensures eof ==> fileOffset == |Document(wording, entry)|
      ensures StepsLeft(entry, state, nextFunction) < old(StepsLeft(entry, state, nextFunction))
              || (pending == old(pending) && StepsLeft(entry, state, nextFunction) == old(StepsLeft(entry, state, nextFunction)))
    {
      if pending == [] {
        GenerateMore();
        TurnRound();
        if pending == [] {
          assert Texts(pending) + Remaining(wording, entry, state, nextFunction) == "";
          return true;
        }
      }
      eof := false;
    }

    /** Drops the front action, all of whose text has been passed. */
    method PopFront()
      requires Valid() && pending != []
      modifies this`pending, this`fileOffset
      ensures Valid() && pending == old(pending)[1..] && fileOffset == old(fileOffset) + |old(pending)[0].Text()|
    {
      ghost var rest := Remaining(wording, entry, state, nextFunction);
      DropFront(Document(wording, entry), fileOffset, pending, rest);
      fileOffset := fileOffset + |pending[0].Text()|;
      pending := pending[1..];
    }

    /** Reads up to len bytes at the given offset; None for an offset already passed.  The result
        is short only at the end of the document. */
    method Read(offset: nat, len: nat) returns (data: Option<string>)
      requires Valid()
      modifies this
      ensures Valid() && entry == old(entry)
      ensures if offset < old(fileOffset) then data == None && fileOffset == old(fileOffset)
              else data == Some(Slice(Document(wording, entry), offset, len))
    {
      if offset < fileOffset {
        return None;
      }
      ghost var doc := Document(wording, entry);
      var skip: nat, left: nat := offset - fileOffset, len;
      var output := "";
      while left > 0
        invariant Valid() && entry == old(entry)
        invariant ReadSoFar(doc, fileOffset, offset, output, skip, left) && left + |output| == len
        decreases StepsLeft(entry, state, nextFunction), |pending|, left
      {
        var eof := FillPending();
        if eof {
          break;
        }
        var text := pending[0].Text();
        DropFront(doc, fileOffset, pending, Remaining(wording, entry, state, nextFunction));
        FrontText(doc, fileOffset, text, Texts(pending[1..]) + Remaining(wording, entry, state, nextFunction));
        var copied, used, toSkip := CopyFront(text, skip, left);
        CopyStep(doc, fileOffset, text, offset, output, skip, left, copied);
        output := output + copied;
        left := left - |copied|;
        skip := toSkip;
        if used == |text| {
          PopFront();
        }
      }
      ReadDone(doc, fileOffset, offset, output, skip, left, len);
      data := Some(output);
    }
  }

  lemma ReadDone(doc: string, at: nat, offset: nat, output: string, skip: nat, left: nat, len: nat)
    requires ReadSoFar(doc, at, offset, output, skip, left) && left + |output| == len
    requires left == 0 || at == |doc|
    ensures output == Slice(doc, offset, len)
  {
    if output != "" {
      assert Clip(offset + len, doc) == offset + |output|;
    }
  }

  /** The bytes read so far are right, and more of them start skip bytes after the front action. */
  ghost predicate ReadSoFar(doc: string, at: nat, offset: nat, output: string, skip: nat, left: nat) {
    && (output == "" || (offset + |output| <= |doc| && output == doc[offset..offset + |output|] && skip == 0))
    && (left > 0 ==> at + skip == offset + |output|)
  }

  lemma CopyStep(doc: string, at: nat, text: string, offset: nat, output: string, skip: nat, left: nat, copied: string)
    requires at + |text| <= |doc| && doc[at..at + |text|] == text && left > 0
    requires ReadSoFar(doc, at, offset, output, skip, left)
    requires copied == if skip >= |text| then "" else Slice(text, skip, left)
    ensures |copied| <= left
    ensures skip >= |text| ==> ReadSoFar(doc, at + |text|, offset, output + copied, skip - |text|, left)
    ensures skip < |text| && skip + |copied| == |text| ==>
              ReadSoFar(doc, at + |text|, offset, output + copied, 0, left - |copied|)
    ensures skip < |text| && skip + |copied| < |text| ==>
              left == |copied| && ReadSoFar(doc, at, offset, output + copied, 0, 0)
  {
    if skip >= |text| {
      assert output + copied == output;
    } else {
      CopyFromText(doc, at, text, skip, left);
      if copied != "" {
        assert output == "" || doc[offset..offset + |output|] + copied == doc[offset..offset + |output| + |copied|];
      }
    }
  }

  lemma StartIsDocument(w: Wording, e: Entry)
    ensures Document(w, e)[0..] == Texts([]) + Remaining(w, e, XmlHead, 0)
  {
  }

  lemma Assoc(a: string, b: string, c: string)
    ensures (a + b) + c == a + (b + c)
  {
  }

  lemma ElementParts(a: string, b: string, c: string, d: string, e: string)
    ensures ((a + b + c) + d) + e == a + (b + (c + (d + e)))
  {
    Assoc(a + b + c, d, e);
    Assoc(a + b, c, d + e);
    Assoc(a, b, c + (d + e));
  }

  lemma ReverseThree(a: Action, b: Action, c: Action)
    ensures Reversed([a, b, c]) == [c, b, a]
  {
    assert [a, b, c][1..] == [b, c] && [b, c][1..] == [c] && [c][1..] == [];
    assert Reversed([c]) == [c];
    assert Reversed([b, c]) == [c] + [b];
    assert Reversed([a, b, c]) == ([c] + [b]) + [a];
  }

  lemma ReverseFour(a: Action, b: Action, c: Action, d: Action)
    ensures Reversed([a, b, c, d]) == [d, c, b, a]
  {
    assert [a, b, c, d][1..] == [b, c, d];
    ReverseThree(b, c, d);
  }

  /** The front action is the document from the file offset on. */
  lemma FrontText(doc: string, at: nat, text: string, after: string)
    requires at <= |doc| && doc[at..] == text + after
    ensures at + |text| <= |doc| && doc[at..at + |text|] == text && doc[at + |text|..] == after
  {
    assert |doc[at..]| == |text| + |after|;
    assert doc[at..at + |text|] == doc[at..][..|text|] == text;
    assert doc[at + |text|..] == doc[at..][|text|..] == after;
  }

  lemma {:induction false} DropFront(doc: string, at: nat, pending: seq<Action>, rest: string)
    requires pending != [] && at <= |doc| && doc[at..] == Texts(pending) + rest
    ensures at + |pending[0].Text()| <= |doc|
    ensures doc[at + |pending[0].Text()|..] == Texts(pending[1..]) + rest
    ensures doc[at..] == pending[0].Text() + (Texts(pending[1..]) + rest)
  {
    Assoc(pending[0].Text(), Texts(pending[1..]), rest);
    FrontText(doc, at, pending[0].Text(), Texts(pending[1..]) + rest);
  }

  lemma CopyFromText(doc: string, at: nat, text: string, from: nat, len: nat)
    requires at + |text| <= |doc| && doc[at..at + |text|] == text && from <= |text|
    ensures var c := Slice(text, from, len);
            at + from + |c| <= |doc| && c == doc[at + from..at + from + |c|]
  {
    var c := Slice(text, from, len);
    forall k | 0 <= k < |c| ensures c[k] == doc[at + from + k] {
      assert c[k] == text[from + k] == doc[at..at + |text|][from + k];
    }
  }

  // ----- The memory space -----

  datatype ReadError = NoError | OutOfBounds | Permanent

  type NodeId = nat

  /** The memory space that serves the descriptions of trains, one node at a time. */
  class TrainFdiSpace {
    const gen: FdiXmlGenerator
    var node: Option<NodeId>
    var train: Entry

    constructor ()
      ensures Valid() && node == None && gen.wording == FDI && fresh(gen)
    {
      train := Entry(-1, []);
      node := None;
      gen := new FdiXmlGenerator(FDI, Entry(-1, []));
    }

    ghost predicate Valid()
      reads this, gen
    {
      gen.Valid() && gen.entry == train
    }

    method ResetFile()
      modifies gen
      ensures gen.Valid() && gen.entry == train && gen.fileOffset == 0
    {
      gen.Reset(train);
    }

    /** Turns to the node n, whose database entry is `found` if it is a train.  A node that is
        already served keeps its place in the document. */
    method SetNode(n: NodeId, found: Option<Entry>) returns (ok: bool)
      requires Valid()
      modifies this, gen
      ensures Valid() && ok == (old(node) == Some(n) || found.Some?)
      ensures node == if ok then Some(n) else None
      ensures if old(node) == Some(n) || found == None then train == old(train) && gen.fileOffset == old(gen.fileOffset)
              else train == found.value && gen.fileOffset == 0
    {
      if node == Some(n) {
        return true;
      }
      if found == None {
        node := None;
        return false;
      }
      node := Some(n);
      train := found.value;
      ResetFile();
      return true;
    }

    /** Main result: every read, at any offset and after any reads before it, returns exactly that
        slice of the whole document; nothing but an empty slice is an error. */
    method Read(source: nat, len: nat) returns (data: string, error: ReadError)
      requires Valid() && node.Some?
      modifies gen
      ensures Valid() && train == old(train)
      ensures data == Slice(Document(gen.wording, train), source, len)
      ensures error == if data == "" then OutOfBounds else NoError
    {
      if source <= gen.fileOffset {
        ResetFile();
      }
      var result := gen.Read(source, len);
      match result
      case None => return "", Permanent;
      case Some(bytes) =>
        data := bytes;
        error := if bytes == "" then OutOfBounds else NoError;
    }
  }

  /** The slices of consecutive reads, each starting where the one before ended. */
  function Chunks(doc: string, offset: nat, lens: seq<nat>): string
    decreases |lens|
  {
    if lens == [] then ""
    else
      var data := Slice(doc, offset, lens[0]);
      data + Chunks(doc, offset + |data|, lens[1..])
  }

  function Total(lens: seq<nat>): nat {
    if lens == [] then 0 else lens[0] + Total(lens[1..])
  }

  lemma SliceSplit(doc: string, offset: nat, a: nat, b: nat, total: nat, data: string)
    requires total == a + b && data == Slice(doc, offset, a)
    ensures data + Slice(doc, offset + |data|, b) == Slice(doc, offset, total)
  {
    var x, y, z := Clip(offset, doc), Clip(offset + a, doc), Clip(offset + total, doc);
    assert doc[x..y] + doc[y..z] == doc[x..z];
  }

  lemma SliceNothing(doc: string, offset: nat)
    ensures Slice(doc, offset, 0) == ""
  {
  }

  /** Consecutive reads of any sizes put the document back together. */
  lemma {:induction false} ChunksAreSlice(doc: string, offset: nat, lens: seq<nat>)
    ensures Chunks(doc, offset, lens) == Slice(doc, offset, Total(lens))
    decreases |lens|
  {
    if lens == [] {
      SliceNothing(doc, offset);
    } else {
      var first, rest := lens[0], Total(lens[1..]);
      var data := Slice(doc, offset, first);
      ChunksAreSlice(doc, offset + |data|, lens[1..]);
      SliceSplit(doc, offset, first, rest, Total(lens), data);
    }
  }
}
