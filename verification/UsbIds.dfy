/** The parser of usb.ids: a line at a time, with the section that is open carried from line to line. */
module UsbIds {
  import opened Usb
  import opened NameTables

  // ----- one line of text -----

  function At(s: string, i: nat): char { if i < |s| then s[i] else '\0' }

  predicate StartsWith(s: string, p: string) { p <= s }

  predicate IsSpace(c: char) { c == ' ' || 9 <= c as int <= 13 }

  predicate IsXDigit(c: char) { '0' <= c <= '9' || 'a' <= c <= 'f' || 'A' <= c <= 'F' }

  function XDigit(c: char): nat
    requires IsXDigit(c)
  {
    if c <= '9' then c as int - '0' as int
    else if c <= 'F' then c as int - 'A' as int + 10
    else c as int - 'a' as int + 10
  }

  /** The line up to its end. */
  function Cut(s: string): string {
    if s == "" || s[0] == '\r' || s[0] == '\n' || s[0] == '\0' then "" else [s[0]] + Cut(s[1..])
  }

  function SkipSpaces(s: string, i: nat): (j: nat)
    requires i <= |s|
    ensures i <= j <= |s| && (j < |s| ==> !IsSpace(s[j]))
    decreases |s| - i
  {
    if i < |s| && IsSpace(s[i]) then SkipSpaces(s, i + 1) else i
  }

  const ULONG_MAX: nat := 0xffff_ffff_ffff_ffff

  function HexRun(s: string, i: nat, value: nat): (r: (nat, nat))
    requires i <= |s|
    ensures i <= r.1 <= |s|
    decreases |s| - i
  {
    if i < |s| && IsXDigit(s[i]) then
      var v := 16 * value + XDigit(s[i]);
      HexRun(s, i + 1, if v > ULONG_MAX then ULONG_MAX else v)
    else (value, i)
  }

  /** strtoul to the base of 16, at a digit: the value and where the digits end. */
  function Strtoul(s: string, i: nat): (r: (nat, nat))
    requires i <= |s|
    ensures i <= r.1 <= |s|
  {
    if At(s, i) == '0' && At(s, i + 1) in "xX" && IsXDigit(At(s, i + 2)) then HexRun(s, i + 2, 0) else HexRun(s, i, 0)
  }

  /** A number and a name, as an `unsigned int` and the rest of the line. */
  datatype Spec = NoSpec | Spec(u: uint32, name: string)

  function SpecAt(s: string, i: nat): Spec
    requires i <= |s|
  {
    var (value, end) := Strtoul(s, i);
    var j := SkipSpaces(s, end);
    if j == |s| then NoSpec else Spec(AsWord(value), s[j..])
  }

  datatype Line =
    | Skipped
    | LangLine
    | HutLine
    | ClassLine(spec: Spec)
    | VendorLine(spec: Spec)
    | ItemLine(spec: Spec)       // a product or a subclass
    | ProtocolLine(spec: Spec)

  /** Which kind of line it is; the order of the tests matters. */
  function Classify(line: string): Line {
    var buf := Cut(line);
    if buf == "" || buf[0] == '#' then Skipped
    else if StartsWith(buf, "PHYSDES ") || StartsWith(buf, "PHY ") || StartsWith(buf, "BIAS ") then Skipped
    else if StartsWith(buf, "L ") then LangLine
    else if StartsWith(buf, "C ") then
      var i := SkipSpaces(buf, 2);
      if IsXDigit(At(buf, i)) then ClassLine(SpecAt(buf, i)) else Skipped
    else if StartsWith(buf, "AT") && IsSpace(At(buf, 2)) then Skipped
    else if StartsWith(buf, "HCC") && IsSpace(At(buf, 3)) then Skipped
    else if IsXDigit(buf[0]) then VendorLine(SpecAt(buf, 0))
    else if buf[0] == '\t' && IsXDigit(At(buf, 1)) then ItemLine(SpecAt(buf, 1))
    else if buf[0] == '\t' && At(buf, 1) == '\t' && IsXDigit(At(buf, 2)) then ProtocolLine(SpecAt(buf, 2))
    else if StartsWith(buf, "HUT ") then HutLine
    else Skipped
  }

  // ----- the tables -----

  type Table = map<uint32, string>

  datatype Names = Names(vendors: Table, products: Table, classes: Table, subclasses: Table, protocols: Table)

  const NO_NAMES := Names(map[], map[], map[], map[], map[])

  /** The last* variables; -1 is closed. */
  datatype Section = Section(vendor: int32, class_: int32, subclass: int32, hut: int32, lang: int32)

  const CLOSED := Section(-1, -1, -1, -1, -1)

  datatype State = State(names: Names, section: Section)

  // Ids are cut to their width when they are stored: 16 bits for vendors and products, 8 for the others.
  function Id16(i: int): nat { i % 0x1_0000 }

  function Id8(i: int): nat { i % 0x100 }

  function ProductNum(vendor: int, product: int): uint32 { 0x1_0000 * Id16(vendor) + Id16(product) }

  function SubclassNum(class_: int, subclass: int): uint32 { 0x100 * Id8(class_) + Id8(subclass) }

  function ProtocolNum(class_: int, subclass: int, protocol: int): uint32 {
    0x1_0000 * Id8(class_) + 0x100 * Id8(subclass) + Id8(protocol)
  }

  /** A number says which ids it was made of: comparing numbers is comparing ids. */
  lemma NumbersAreOneToOne(a: int, b: int, c: int, a': int, b': int, c': int)
    ensures ProductNum(a, b) == ProductNum(a', b') <==> Id16(a) == Id16(a') && Id16(b) == Id16(b')
    ensures SubclassNum(a, b) == SubclassNum(a', b') <==> Id8(a) == Id8(a') && Id8(b) == Id8(b')
    ensures ProtocolNum(a, b, c) == ProtocolNum(a', b', c')
       <==> Id8(a) == Id8(a') && Id8(b) == Id8(b') && Id8(c) == Id8(c')
  {
  }

  /** A line, and whether there is memory for what it wants to store. */
  datatype Input = Input(line: string, allocOk: bool)

  /** new_vendor and its like. */
  function Store(t: Table, num: uint32, name: string, allocOk: bool): Table {
    if allocOk then InsertName(t, num, name) else t
  }

  /** The section that is open after a line. One opens whether or not its own entry could be stored. */
  function NextSection(s: Section, line: Line): Section {
    match line
    case LangLine => CLOSED.(lang := 1)
    case HutLine => CLOSED.(hut := 1)
    case ClassLine(Spec(u, _)) => CLOSED.(class_ := AsInt(u))
    case VendorLine(Spec(u, _)) => CLOSED.(vendor := AsInt(u))
    case ItemLine(Spec(u, _)) => if s.vendor == -1 && s.class_ != -1 then s.(subclass := AsInt(u)) else s
    case _ => s
  }

  /** What a line adds to the tables. */
  function Entered(n: Names, s: Section, line: Line, ok: bool): Names {
    match line
    case ClassLine(Spec(u, name)) => n.(classes := Store(n.classes, Id8(u), name, ok))
    case VendorLine(Spec(u, name)) => n.(vendors := Store(n.vendors, Id16(u), name, ok))
    case ItemLine(Spec(u, name)) =>
      if s.vendor != -1 then n.(products := Store(n.products, ProductNum(s.vendor, u), name, ok))
      else if s.class_ != -1 then n.(subclasses := Store(n.subclasses, SubclassNum(s.class_, u), name, ok))
      else n
    case ProtocolLine(Spec(u, name)) =>
      if s.class_ != -1 && s.subclass != -1 then
        n.(protocols := Store(n.protocols, ProtocolNum(s.class_, s.subclass, u), name, ok))
      else n
    case _ => n
  }

  function Take(st: State, line: Line, ok: bool): State {
    State(Entered(st.names, st.section, line, ok), NextSection(st.section, line))
  }

  /** One turn of the loop of parse. */
  function ParseLine(st: State, input: Input): State { Take(st, Classify(input.line), input.allocOk) }

  function ParseLines(st: State, inputs: seq<Input>): State {
    if inputs == [] then st else ParseLine(ParseLines(st, inputs[..|inputs| - 1]), inputs[|inputs| - 1])
  }

  /** parse, from empty tables. */
  function Parsed(inputs: seq<Input>): State { ParseLines(State(NO_NAMES, CLOSED), inputs) }

  // ----- what parse keeps -----

  /** Every product has its vendor, every subclass its class, every protocol its subclass. */
  predicate Integrity(n: Names) {
    && (forall num :: num in n.products ==> num / 0x1_0000 in n.vendors)
    && (forall num :: num in n.subclasses ==> num / 0x100 in n.classes)
    && (forall num :: num in n.protocols ==> num / 0x100 in n.subclasses)
  }

  /** At most one section is open, and a subclass only within its class. */
  predicate OneSection(s: Section) {
    && (s.vendor != -1 ==> s.class_ == -1 && s.hut == -1 && s.lang == -1)
    && (s.class_ != -1 ==> s.hut == -1 && s.lang == -1)
    && (s.hut != -1 ==> s.lang == -1)
    && (s.subclass != -1 ==> s.class_ != -1)
  }

  /** What is open is stored. */
  predicate OpenIsStored(st: State) {
    var n, s := st.names, st.section;
    && (s.vendor != -1 ==> Id16(s.vendor) in n.vendors)
    && (s.class_ != -1 ==> Id8(s.class_) in n.classes)
    && (s.subclass != -1 ==> SubclassNum(s.class_, s.subclass) in n.subclasses)
  }

  predicate Good(st: State) { Integrity(st.names) && OneSection(st.section) && OpenIsStored(st) }

  lemma SameIds(u: uint32)
    ensures Id16(AsInt(u)) == Id16(u) && Id8(AsInt(u)) == Id8(u)
  {
  }

  lemma Parents(a: int, b: int, c: int)
    ensures ProductNum(a, b) / 0x1_0000 == Id16(a)
    ensures SubclassNum(a, b) / 0x100 == Id8(a)
    ensures ProtocolNum(a, b, c) / 0x100 == SubclassNum(a, b)
  {
  }

  predicate HasSpec(l: Line) {
    (l.ClassLine? || l.VendorLine? || l.ItemLine? || l.ProtocolLine?) && l.spec.Spec?
  }

  /** A line that opens a section whose own entry is there already, or that opens none (-1 is no section). When
      it finds no memory, nothing is amiss. */
  predicate Harmless(st: State, l: Line) {
    HasSpec(l) && AsInt(l.spec.u) != -1 ==>
      && (l.VendorLine? ==> Id16(l.spec.u) in st.names.vendors)
      && (l.ClassLine? ==> Id8(l.spec.u) in st.names.classes)
      && (l.ItemLine? && st.section.vendor == -1 && st.section.class_ != -1 ==>
            SubclassNum(st.section.class_, l.spec.u) in st.names.subclasses)
  }

  lemma LineKeepsIntegrity(st: State, l: Line, ok: bool)
    requires Good(st)
    ensures Integrity(Take(st, l, ok).names)
  {
    var s := st.section;
    if HasSpec(l) {
      Parents(s.vendor, l.spec.u, 0);
      Parents(s.class_, l.spec.u, 0);
      Parents(s.class_, s.subclass, l.spec.u);
    }
  }

  lemma LineOpensStored(st: State, l: Line, ok: bool)
    requires Good(st)
    ensures OneSection(Take(st, l, ok).section)
    ensures OpenIsStored(Take(st, l, ok)) <==> ok || Harmless(st, l)
  {
    if HasSpec(l) {
      SameIds(l.spec.u);
    }
  }

  /** Memory runs out on harmless lines only. */
  predicate MemorySuffices(st: State, inputs: seq<Input>) {
    inputs == [] ||
    var before, last := inputs[..|inputs| - 1], inputs[|inputs| - 1];
    MemorySuffices(st, before) && (last.allocOk || Harmless(ParseLines(st, before), Classify(last.line)))
  }

  /** After each of the lines. */
  predicate GoodThroughout(st: State, inputs: seq<Input>) {
    Good(ParseLines(st, inputs)) && (inputs != [] ==> GoodThroughout(st, inputs[..|inputs| - 1]))
  }

  /** After each of the lines of a file integrity holds, at most one section is open and its entry is stored, if and
      only if memory runs out on harmless lines only. */
  lemma {:induction false} ParseKeepsGood(inputs: seq<Input>)
    ensures MemorySuffices(State(NO_NAMES, CLOSED), inputs) <==> GoodThroughout(State(NO_NAMES, CLOSED), inputs)
  {
    if inputs != [] {
      var last := inputs[|inputs| - 1];
      ParseKeepsGood(inputs[..|inputs| - 1]);
      var st := Parsed(inputs[..|inputs| - 1]);
      if Good(st) {
        LineKeepsIntegrity(st, Classify(last.line), last.allocOk);
        LineOpensStored(st, Classify(last.line), last.allocOk);
      }
    }
  }

  // ----- integrity alone -----

  /** Which section is open is a matter of the lines alone. */
  function SectionAfter(inputs: seq<Input>): Section {
    if inputs == [] then CLOSED
    else NextSection(SectionAfter(inputs[..|inputs| - 1]), Classify(inputs[|inputs| - 1].line))
  }

  lemma {:induction false} SectionIsOpen(inputs: seq<Input>)
    ensures Parsed(inputs).section == SectionAfter(inputs) && OneSection(SectionAfter(inputs))
  {
    if inputs != [] {
      SectionIsOpen(inputs[..|inputs| - 1]);
    }
  }

  predicate ListsVendor(l: Line, id: nat) { l.VendorLine? && HasSpec(l) && Id16(l.spec.u) == id }

  predicate ListsClass(l: Line, id: nat) { l.ClassLine? && HasSpec(l) && Id8(l.spec.u) == id }

  predicate ListsSubclass(s: Section, l: Line, num: uint32) {
    l.ItemLine? && HasSpec(l) && s.vendor == -1 && s.class_ != -1 && SubclassNum(s.class_, l.spec.u) == num
  }

  // Some line of the file lists the vendor, the class or the subclass, and found memory.
  predicate VendorListed(inputs: seq<Input>, id: nat) {
    inputs != [] &&
    var before, last := inputs[..|inputs| - 1], inputs[|inputs| - 1];
    VendorListed(before, id) || (last.allocOk && ListsVendor(Classify(last.line), id))
  }

  predicate ClassListed(inputs: seq<Input>, id: nat) {
    inputs != [] &&
    var before, last := inputs[..|inputs| - 1], inputs[|inputs| - 1];
    ClassListed(before, id) || (last.allocOk && ListsClass(Classify(last.line), id))
  }

  predicate SubclassListed(inputs: seq<Input>, num: uint32) {
    inputs != [] &&
    var before, last := inputs[..|inputs| - 1], inputs[|inputs| - 1];
    SubclassListed(before, num) || (last.allocOk && ListsSubclass(SectionAfter(before), Classify(last.line), num))
  }

  lemma StoresVendor(st: State, l: Line, ok: bool, id: nat)
    ensures id in Take(st, l, ok).names.vendors <==> id in st.names.vendors || (ok && ListsVendor(l, id))
  {
  }

  lemma StoresClass(st: State, l: Line, ok: bool, id: nat)
    ensures id in Take(st, l, ok).names.classes <==> id in st.names.classes || (ok && ListsClass(l, id))
  {
  }

  lemma StoresSubclass(st: State, l: Line, ok: bool, num: uint32)
    ensures num in Take(st, l, ok).names.subclasses
       <==> num in st.names.subclasses || (ok && ListsSubclass(st.section, l, num))
  {
  }

  /** What is stored is what is listed. */
  lemma {:induction false} StoredIsListed(inputs: seq<Input>, id: nat, num: uint32)
    ensures id in Parsed(inputs).names.vendors <==> VendorListed(inputs, id)
    ensures id in Parsed(inputs).names.classes <==> ClassListed(inputs, id)
    ensures num in Parsed(inputs).names.subclasses <==> SubclassListed(inputs, num)
  {
    if inputs != [] {
      var before, last := inputs[..|inputs| - 1], inputs[|inputs| - 1];
      StoredIsListed(before, id, num);
      SectionIsOpen(before);
      StoresVendor(Parsed(before), Classify(last.line), last.allocOk, id);
      StoresClass(Parsed(before), Classify(last.line), last.allocOk, id);
      StoresSubclass(Parsed(before), Classify(last.line), last.allocOk, num);
    }
  }

  /** A line whose parent is not stored. */
  predicate Orphans(st: State, l: Line) {
    var n, s := st.names, st.section;
    HasSpec(l) &&
    (|| (l.ItemLine? && if s.vendor != -1 then Id16(s.vendor) !in n.vendors
                        else s.class_ != -1 && Id8(s.class_) !in n.classes)
     || (l.ProtocolLine? && s.class_ != -1 && s.subclass != -1
         && SubclassNum(s.class_, s.subclass) !in n.subclasses))
  }

  /** One line keeps integrity, or breaks it. */
  lemma LineOrphans(st: State, l: Line, ok: bool)
    requires Integrity(st.names)
    ensures Integrity(Take(st, l, ok).names) <==> !(ok && Orphans(st, l))
  {
    var n, n', s := st.names, Take(st, l, ok).names, st.section;
    if HasSpec(l) && ok {
      var u := l.spec.u;
      Parents(s.vendor, u, 0);
      Parents(s.class_, u, 0);
      Parents(s.class_, s.subclass, u);
      if l.ItemLine? && s.vendor != -1 {
        assert ProductNum(s.vendor, u) in n'.products;
      } else if l.ItemLine? && s.class_ != -1 {
        assert SubclassNum(s.class_, u) in n'.subclasses;
      } else if l.ProtocolLine? && s.class_ != -1 && s.subclass != -1 {
        assert ProtocolNum(s.class_, s.subclass, u) in n'.protocols;
      }
    }
  }

  /** The next line of a file is listed under a parent that no line before it, with memory, has listed. */
  predicate Orphaned(before: seq<Input>, l: Line) {
    var s := SectionAfter(before);
    HasSpec(l) &&
    (|| (l.ItemLine? && if s.vendor != -1 then !VendorListed(before, Id16(s.vendor))
                        else s.class_ != -1 && !ClassListed(before, Id8(s.class_)))
     || (l.ProtocolLine? && s.class_ != -1 && s.subclass != -1
         && !SubclassListed(before, SubclassNum(s.class_, s.subclass))))
  }

  lemma OrphansByFile(before: seq<Input>, l: Line)
    ensures Orphans(Parsed(before), l) <==> Orphaned(before, l)
  {
    var s := SectionAfter(before);
    SectionIsOpen(before);
    StoredIsListed(before, Id16(s.vendor), SubclassNum(s.class_, s.subclass));
    StoredIsListed(before, Id8(s.class_), 0);
  }

  predicate NoOrphans(inputs: seq<Input>) {
    inputs == [] ||
    var before, last := inputs[..|inputs| - 1], inputs[|inputs| - 1];
    NoOrphans(before) && !(last.allocOk && Orphaned(before, Classify(last.line)))
  }

  predicate IntegrityThroughout(inputs: seq<Input>) {
    Integrity(Parsed(inputs).names) && (inputs != [] ==> IntegrityThroughout(inputs[..|inputs| - 1]))
  }

  /** For every file, after each of its lines each product has its vendor, each subclass its class and each protocol
      its subclass, if and only if no line that finds memory comes under a parent that none before it has listed
      with memory. */
  lemma {:induction false} ParseKeepsIntegrity(inputs: seq<Input>)
    ensures NoOrphans(inputs) <==> IntegrityThroughout(inputs)
  {
    if inputs != [] {
      var before, last := inputs[..|inputs| - 1], inputs[|inputs| - 1];
      ParseKeepsIntegrity(before);
      if IntegrityThroughout(before) {
        LineOrphans(Parsed(before), Classify(last.line), last.allocOk);
        OrphansByFile(before, Classify(last.line));
      }
    }
  }

  /** So it is for every file when memory does not run out. */
  lemma {:induction false} MemoryKeepsIntegrity(inputs: seq<Input>)
    requires forall i :: 0 <= i < |inputs| ==> inputs[i].allocOk
    ensures MemorySuffices(State(NO_NAMES, CLOSED), inputs) && IntegrityThroughout(inputs)
  {
    if inputs != [] {
      MemoryKeepsIntegrity(inputs[..|inputs| - 1]);
    }
    ParseKeepsGood(inputs);
  }

  /** It does matter: a vendor that could not be stored gets products. */
  lemma OrphanedProduct()
    ensures !Integrity(Parsed([Input("1 v", false), Input("\t2 p", true)]).names)
  {
    var st, one, two := State(NO_NAMES, CLOSED), Input("1 v", false), Input("\t2 p", true);
    TwoLines(st, one, two);
    VendorRead();
    ProductRead();
    LineOrphans(State(NO_NAMES, CLOSED.(vendor := 1)), ItemLine(Spec(2, "p")), true);
  }

  lemma TwoLines(st: State, one: Input, two: Input)
    ensures ParseLines(st, [one, two]) == ParseLine(ParseLine(st, one), two)
  {
    var both := [one, two];
    assert both[..|both| - 1] == [one];
    assert [one][..|[one]| - 1] == [];
    assert ParseLines(st, [one]) == ParseLine(ParseLines(st, []), one);
  }

  lemma VendorRead()
    ensures Classify("1 v") == VendorLine(Spec(1, "v"))
  {
    var s := "1 v";
    assert s[1..] == " v" && " v"[1..] == "v" && "v"[1..] == "";
    assert Cut("v") == "v" && Cut(" v") == " v" && Cut(s) == s;
    assert HexRun(s, 0, 0) == HexRun(s, 1, 1) == (1, 1);
    assert SkipSpaces(s, 1) == SkipSpaces(s, 2) == 2;
    assert s[2..] == "v";
  }

  lemma ProductRead()
    ensures Classify("\t2 p") == ItemLine(Spec(2, "p"))
  {
    var s := "\t2 p";
    assert s[1..] == "2 p" && "2 p"[1..] == " p" && " p"[1..] == "p" && "p"[1..] == "";
    assert Cut("p") == "p" && Cut(" p") == " p" && Cut("2 p") == "2 p" && Cut(s) == s;
    assert HexRun(s, 1, 0) == HexRun(s, 2, 2) == (2, 2);
    assert SkipSpaces(s, 2) == SkipSpaces(s, 3) == 3;
    assert s[3..] == "p";
  }

  predicate Extends(t: Table, t': Table) {
    forall num :: num in t ==> num in t' && t'[num] == t[num]
  }

  predicate AllExtend(n: Names, n': Names) {
    && Extends(n.vendors, n'.vendors) && Extends(n.products, n'.products) && Extends(n.classes, n'.classes)
    && Extends(n.subclasses, n'.subclasses) && Extends(n.protocols, n'.protocols)
  }

  lemma LineKeepsNames(st: State, line: Line, ok: bool)
    ensures AllExtend(st.names, Take(st, line, ok).names)
  {
  }

  lemma ExtendsIsTransitive(a: Table, b: Table, c: Table)
    ensures Extends(a, b) && Extends(b, c) ==> Extends(a, c)
  {
  }

  lemma AllExtendIsTransitive(a: Names, b: Names, c: Names)
    requires AllExtend(a, b) && AllExtend(b, c)
    ensures AllExtend(a, c)
  {
    ExtendsIsTransitive(a.vendors, b.vendors, c.vendors);
    ExtendsIsTransitive(a.products, b.products, c.products);
    ExtendsIsTransitive(a.classes, b.classes, c.classes);
    ExtendsIsTransitive(a.subclasses, b.subclasses, c.subclasses);
    ExtendsIsTransitive(a.protocols, b.protocols, c.protocols);
  }

  /** A name that is there stays: later lines with its number are duplicates. */
  lemma {:induction false} ParseKeepsNames(st: State, before: seq<Input>, after: seq<Input>)
    ensures AllExtend(ParseLines(st, before).names, ParseLines(st, before + after).names)
  {
    if after == [] {
      assert before + after == before;
    } else {
      var k := |after| - 1;
      ParseKeepsNames(st, before, after[..k]);
      assert (before + after)[..|before + after| - 1] == before + after[..k];
      var mid := ParseLines(st, before + after[..k]);
      LineKeepsNames(mid, Classify(after[k].line), after[k].allocOk);
      AllExtendIsTransitive(ParseLines(st, before).names, mid.names, ParseLine(mid, after[k]).names);
    }
  }
}
