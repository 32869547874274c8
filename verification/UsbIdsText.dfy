/** What a line of usb.ids means, and what the five tables hold after a file. */
module UsbIdsText {
  import opened Usb
  import opened NameTables
  import opened UsbIds

  // ----- numbers as they are written -----

  predicate WritesDigit(c: char, d: nat) {
    d < 16 && (c == "0123456789abcdef"[d] || c == "0123456789ABCDEF"[d])
  }

  /** h is the number u in hexadecimal, in either case and with any leading zeros. */
  predicate Writes(h: string, u: nat) {
    if h == "" then u == 0 else WritesDigit(h[|h| - 1], u % 16) && Writes(h[..|h| - 1], u / 16)
  }

  /** printf with %0*x. */
  function Hex(u: nat, width: nat): (h: string)
    ensures Writes(h, u) && |h| >= width && (u > 0 ==> h != "")
    decreases u + width
  {
    if u == 0 && width == 0 then "" else Hex(u / 16, if width == 0 then 0 else width - 1) + ["0123456789abcdef"[u % 16]]
  }

  lemma DigitIsRead(c: char, d: nat)
    requires WritesDigit(c, d)
    ensures IsXDigit(c) && XDigit(c) == d && c !in "xX" && !IsSpace(c) && !EndsLine(c)
  {
  }

  lemma {:induction false} DigitsOnly(h: string, u: nat, k: nat)
    requires Writes(h, u) && k < |h|
    ensures IsXDigit(h[k]) && h[k] !in "xX" && !IsSpace(h[k]) && !EndsLine(h[k])
  {
    if k == |h| - 1 {
      DigitIsRead(h[k], u % 16);
    } else {
      DigitsOnly(h[..|h| - 1], u / 16, k);
    }
  }

  /** strtoul stops at the largest unsigned long. */
  function Saturated(u: nat): nat { if u > ULONG_MAX then ULONG_MAX else u }

  predicate StandsAt(s: string, i: nat, h: string) {
    i + |h| <= |s| && forall k :: 0 <= k < |h| ==> s[i + k] == h[k]
  }

  lemma {:induction false} DigitsAreRead(s: string, i: nat, h: string, u: nat)
    requires StandsAt(s, i, h) && Writes(h, u)
    ensures HexRun(s, i, 0) == HexRun(s, i + |h|, Saturated(u))
  {
    if h != "" {
      var n := |h| - 1;
      DigitsAreRead(s, i, h[..n], u / 16);
      DigitIsRead(h[n], u % 16);
      assert s[i + n] == h[n];
    }
  }

  lemma NumberIsRead(s: string, i: nat, h: string, u: nat)
    requires h != "" && StandsAt(s, i, h) && Writes(h, u)
    requires i + |h| < |s| && s[i + |h|] == ' '
    ensures Strtoul(s, i) == (Saturated(u), i + |h|)
  {
    DigitsAreRead(s, i, h, u);
    if |h| > 1 {
      DigitsOnly(h, u, 1);
      assert s[i + 1] == h[1];
    }
  }

  // ----- lines as they are written -----

  predicate EndsLine(c: char) { c == '\r' || c == '\n' || c == '\0' }

  predicate OneLine(s: string) { forall k :: 0 <= k < |s| ==> !EndsLine(s[k]) }

  /** The rest of what fgets delivers. */
  predicate LineEnd(s: string) { s == "" || EndsLine(s[0]) }

  predicate IsName(name: string) { name != "" && !IsSpace(name[0]) && OneLine(name) }

  lemma {:induction false} CutAtLineEnd(s: string, end: string)
    requires OneLine(s) && LineEnd(end)
    ensures Cut(s + end) == s
  {
    if s == "" {
      assert s + end == end;
    } else {
      CutAtLineEnd(s[1..], end);
      assert (s + end)[1..] == s[1..] + end;
      assert (s + end)[0] == s[0];
    }
  }

  lemma EntryIsOneLine(front: string, h: string, u: nat, name: string)
    requires OneLine(front) && Writes(h, u) && OneLine(name)
    ensures OneLine(front + h + "  " + name)
  {
    forall k | 0 <= k < |h| ensures !EndsLine(h[k]) {
      DigitsOnly(h, u, k);
    }
  }

  lemma NameIsRead(s: string, i: nat, name: string)
    requires i + 2 + |name| == |s| && s[i] == s[i + 1] == ' ' && s[i + 2..] == name && IsName(name)
    ensures SkipSpaces(s, i) == i + 2
  {
    assert s[i + 2] == name[0];
    assert SkipSpaces(s, i + 1) == i + 2;
  }

  lemma PartsOfEntry(front: string, h: string, name: string)
    ensures var s, i := front + h + "  " + name, |front|;
      && |s| == i + |h| + 2 + |name| && StandsAt(s, i, h)
      && s[i + |h|] == s[i + |h| + 1] == ' ' && s[i + |h| + 2..] == name
  {
  }

  lemma EntryIsRead(front: string, h: string, u: nat, name: string)
    requires h != "" && Writes(h, u) && IsName(name)
    ensures SpecAt(front + h + "  " + name, |front|) == Spec(AsWord(Saturated(u)), name)
  {
    var s, i := front + h + "  " + name, |front|;
    PartsOfEntry(front, h, name);
    NumberIsRead(s, i, h, u);
    NameIsRead(s, i + |h|, name);
  }

  lemma EntryStarts(front: string, h: string, u: nat, name: string)
    requires h != "" && Writes(h, u)
    ensures var s := front + h + "  " + name; front <= s && IsXDigit(s[|front|]) && !IsSpace(s[|front|])
  {
    DigitsOnly(h, u, 0);
  }

  lemma HexBegins(s: string, end: string)
    requires |s| > 1 && OneLine(s) && LineEnd(end)
    requires IsXDigit(s[0]) && (IsXDigit(s[1]) || s[1] == ' ')
    ensures if s[0] == 'C' && s[1] == ' ' then !Classify(s + end).VendorLine?
            else Classify(s + end) == VendorLine(SpecAt(s, 0))
  {
    CutAtLineEnd(s, end);
    assert StartsWith(s, "C ") == (s[0] == 'C' && s[1] == ' ');
  }

  /** A vendor's line, however the number is written, unless it is written C: that is how a class begins. */
  lemma VendorIsRead(h: string, u: nat, name: string, end: string)
    requires h != "" && Writes(h, u) && IsName(name) && LineEnd(end)
    ensures Classify(h + "  " + name + end) == VendorLine(Spec(AsWord(Saturated(u)), name)) <==> h != "C"
  {
    var s := h + "  " + name;
    assert "" + h + "  " + name == s;
    EntryIsOneLine("", h, u, name);
    EntryIsRead("", h, u, name);
    DigitsOnly(h, u, 0);
    if |h| > 1 {
      DigitsOnly(h, u, 1);
    }
    assert s[0] == h[0] && s[1] == if |h| > 1 then h[1] else ' ';
    HexBegins(s, end);
  }

  lemma ClassIsRead(h: string, u: nat, name: string, end: string)
    requires h != "" && Writes(h, u) && IsName(name) && LineEnd(end)
    ensures Classify("C " + h + "  " + name + end) == ClassLine(Spec(AsWord(Saturated(u)), name))
  {
    EntryIsOneLine("C ", h, u, name);
    EntryIsRead("C ", h, u, name);
    EntryStarts("C ", h, u, name);
    CutAtLineEnd("C " + h + "  " + name, end);
  }

  lemma TabBegins(s: string, end: string)
    requires s != "" && s[0] == '\t' && OneLine(s) && LineEnd(end)
    ensures IsXDigit(At(s, 1)) ==> Classify(s + end) == ItemLine(SpecAt(s, 1))
    ensures At(s, 1) == '\t' && IsXDigit(At(s, 2)) ==> Classify(s + end) == ProtocolLine(SpecAt(s, 2))
  {
    CutAtLineEnd(s, end);
  }

  /** A product's line, or a subclass's. */
  lemma ItemIsRead(h: string, u: nat, name: string, end: string)
    requires h != "" && Writes(h, u) && IsName(name) && LineEnd(end)
    ensures Classify("\t" + h + "  " + name + end) == ItemLine(Spec(AsWord(Saturated(u)), name))
  {
    EntryIsOneLine("\t", h, u, name);
    EntryIsRead("\t", h, u, name);
    EntryStarts("\t", h, u, name);
    TabBegins("\t" + h + "  " + name, end);
  }

  lemma ProtocolIsRead(h: string, u: nat, name: string, end: string)
    requires h != "" && Writes(h, u) && IsName(name) && LineEnd(end)
    ensures Classify("\t\t" + h + "  " + name + end) == ProtocolLine(Spec(AsWord(Saturated(u)), name))
  {
    EntryIsOneLine("\t\t", h, u, name);
    EntryIsRead("\t\t", h, u, name);
    EntryStarts("\t\t", h, u, name);
    TabBegins("\t\t" + h + "  " + name, end);
  }

  /** What is read of a number that fits is that number. */
  lemma FittingNumber(u: nat)
    ensures AsWord(Saturated(u)) == u <==> u < 0x1_0000_0000
  {
  }

  lemma WordBegins(p: string, rest: string, end: string)
    requires OneLine(p) && OneLine(rest) && LineEnd(end)
    ensures Cut(p + rest + end) == p + rest && p <= p + rest
  {
    CutAtLineEnd(p + rest, end);
  }

  /** The other lines that begin with a word. */
  lemma TitleIsRead(rest: string, end: string)
    requires OneLine(rest) && LineEnd(end)
    ensures Classify("L " + rest + end) == LangLine && Classify("HUT " + rest + end) == HutLine
  {
    WordBegins("L ", rest, end);
    WordBegins("HUT ", rest, end);
  }

  lemma PhysicalIsSkipped(rest: string, end: string)
    requires OneLine(rest) && LineEnd(end)
    ensures Classify("PHYSDES " + rest + end) == Classify("PHY " + rest + end) == Skipped
    ensures Classify("BIAS " + rest + end) == Skipped
  {
    WordBegins("PHYSDES ", rest, end);
    WordBegins("PHY ", rest, end);
    WordBegins("BIAS ", rest, end);
  }

  lemma OthersAreSkipped(rest: string, end: string)
    requires OneLine(rest) && LineEnd(end)
    ensures Classify("AT " + rest + end) == Classify("HCC " + rest + end) == Skipped
    ensures Classify("#" + rest + end) == Classify(end) == Skipped
  {
    WordBegins("AT ", rest, end);
    WordBegins("HCC ", rest, end);
    WordBegins("#", rest, end);
    CutAtLineEnd("", end);
    assert "" + end == end;
  }

  // ----- the section that is open -----

  predicate OpensSection(l: Line) {
    l.LangLine? || l.HutLine? || ((l.VendorLine? || l.ClassLine?) && l.spec.Spec?)
  }

  predicate Opened(l: Line, s: Section) {
    && s.vendor == (if l.VendorLine? && l.spec.Spec? then AsInt(l.spec.u) else -1)
    && s.class_ == (if l.ClassLine? && l.spec.Spec? then AsInt(l.spec.u) else -1)
  }

  function LineOf(inputs: seq<Input>, i: nat): Line
    requires i < |inputs|
  {
    Classify(inputs[i].line)
  }

  lemma StepOpens(s: Section, l: Line)
    ensures var s' := NextSection(s, l);
      if OpensSection(l) then Opened(l, s') else s'.vendor == s.vendor && s'.class_ == s.class_
  {
  }

  lemma LastLineOpens(inputs: seq<Input>)
    requires inputs != []
    ensures var s, s', l := SectionAfter(inputs[..|inputs| - 1]), SectionAfter(inputs), LineOf(inputs, |inputs| - 1);
      if OpensSection(l) then Opened(l, s') else s'.vendor == s.vendor && s'.class_ == s.class_
  {
    StepOpens(SectionAfter(inputs[..|inputs| - 1]), LineOf(inputs, |inputs| - 1));
  }

  /** The open vendor or class is that of the last line that opens a section. */
  lemma {:induction false} LastOpens(inputs: seq<Input>) returns (k: nat)
    ensures k <= |inputs| && forall j :: k <= j < |inputs| ==> !OpensSection(LineOf(inputs, j))
    ensures if k == 0 then SectionAfter(inputs).vendor == SectionAfter(inputs).class_ == -1
            else OpensSection(LineOf(inputs, k - 1)) && Opened(LineOf(inputs, k - 1), SectionAfter(inputs))
  {
    if inputs == [] {
      return 0;
    }
    LastLineOpens(inputs);
    if OpensSection(LineOf(inputs, |inputs| - 1)) {
      return |inputs|;
    }
    var before := inputs[..|inputs| - 1];
    k := LastOpens(before);
    assert forall j :: 0 <= j < |before| ==> LineOf(before, j) == LineOf(inputs, j);
  }

  /** A line that says which subclass is open: an item's own, or none. */
  predicate SetsSubclass(l: Line) { OpensSection(l) || (l.ItemLine? && l.spec.Spec?) }

  predicate SubclassBy(l: Line, s: Section) {
    s.subclass == if l.ItemLine? && l.spec.Spec? && s.class_ != -1 then AsInt(l.spec.u) else -1
  }

  lemma StepSetsSubclass(s: Section, l: Line)
    requires OneSection(s)
    ensures var s' := NextSection(s, l);
      if SetsSubclass(l) then SubclassBy(l, s') else s'.subclass == s.subclass && s'.class_ == s.class_
  {
  }

  lemma LastSetsSubclass(inputs: seq<Input>)
    requires inputs != []
    ensures var s, s', l := SectionAfter(inputs[..|inputs| - 1]), SectionAfter(inputs), LineOf(inputs, |inputs| - 1);
      if SetsSubclass(l) then SubclassBy(l, s') else s'.subclass == s.subclass && s'.class_ == s.class_
  {
    SectionIsOpen(inputs[..|inputs| - 1]);
    StepSetsSubclass(SectionAfter(inputs[..|inputs| - 1]), LineOf(inputs, |inputs| - 1));
  }

  /** Within a class the open subclass is that of the last item since the class began; outside there is none. */
  lemma {:induction false} LastSubclass(inputs: seq<Input>) returns (k: nat)
    ensures k <= |inputs| && forall j :: k <= j < |inputs| ==> !SetsSubclass(LineOf(inputs, j))
    ensures if k == 0 then SectionAfter(inputs).subclass == -1
            else SetsSubclass(LineOf(inputs, k - 1)) && SubclassBy(LineOf(inputs, k - 1), SectionAfter(inputs))
  {
    if inputs == [] {
      return 0;
    }
    LastSetsSubclass(inputs);
    if SetsSubclass(LineOf(inputs, |inputs| - 1)) {
      return |inputs|;
    }
    var before := inputs[..|inputs| - 1];
    k := LastSubclass(before);
    assert forall j :: 0 <= j < |before| ==> LineOf(before, j) == LineOf(inputs, j);
  }

  // ----- the five tables -----

  datatype Which = Vendors | Products | Classes | Subclasses | Protocols

  function TableOf(n: Names, w: Which): Table {
    match w
    case Vendors => n.vendors
    case Products => n.products
    case Classes => n.classes
    case Subclasses => n.subclasses
    case Protocols => n.protocols
  }

  /** The line lists num in this table, when the section s is open. */
  predicate Lists(w: Which, s: Section, l: Line, num: uint32) {
    match w
    case Vendors => l.VendorLine? && l.spec.Spec? && num == l.spec.u % 0x1_0000
    case Classes => l.ClassLine? && l.spec.Spec? && num == l.spec.u % 0x100
    case Products =>
      && l.ItemLine? && l.spec.Spec? && s.vendor != -1
      && num / 0x1_0000 == s.vendor % 0x1_0000 && num % 0x1_0000 == l.spec.u % 0x1_0000
    case Subclasses =>
      && l.ItemLine? && l.spec.Spec? && s.vendor == -1 && s.class_ != -1
      && num / 0x100 == s.class_ % 0x100 && num % 0x100 == l.spec.u % 0x100
    case Protocols =>
      && l.ProtocolLine? && l.spec.Spec? && s.class_ != -1 && s.subclass != -1
      && num / 0x1_0000 == s.class_ % 0x100 && num / 0x100 % 0x100 == s.subclass % 0x100
      && num % 0x100 == l.spec.u % 0x100
  }

  lemma OnlyZeroFits(base: int, x: int)
    requires -base < base * x < base
    ensures x == 0
  {
  }

  lemma TwoParts(num: uint32, base: nat, a: nat, b: nat)
    requires base > 0 && b < base
    ensures num == base * a + b <==> num / base == a && num % base == b
  {
    var q, r := num / base, num % base;
    assert num == base * q + r;
    if num == base * a + b {
      assert base * (q - a) == b - r;
      OnlyZeroFits(base, q - a);
    }
  }

  lemma ListsProduct(s: Section, l: Line, num: uint32)
    requires HasSpec(l)
    ensures Lists(Products, s, l, num) <==> l.ItemLine? && s.vendor != -1 && num == ProductNum(s.vendor, l.spec.u)
  {
    TwoParts(num, 0x1_0000, Id16(s.vendor), Id16(l.spec.u));
  }

  lemma ListsSubclass(s: Section, l: Line, num: uint32)
    requires HasSpec(l)
    ensures Lists(Subclasses, s, l, num)
       <==> l.ItemLine? && s.vendor == -1 && s.class_ != -1 && num == SubclassNum(s.class_, l.spec.u)
  {
    TwoParts(num, 0x100, Id8(s.class_), Id8(l.spec.u));
  }

  lemma ListsProtocol(s: Section, l: Line, num: uint32)
    requires HasSpec(l)
    ensures Lists(Protocols, s, l, num)
       <==> l.ProtocolLine? && s.class_ != -1 && s.subclass != -1
            && num == ProtocolNum(s.class_, s.subclass, l.spec.u)
  {
    var a, b, c := Id8(s.class_), Id8(s.subclass), Id8(l.spec.u);
    TwoParts(num, 0x100, 0x100 * a + b, c);
    TwoParts(num / 0x100, 0x100, a, b);
  }

  /** A line that finds memory adds what it lists, unless it is there. */
  lemma StepStores(st: State, l: Line, ok: bool, w: Which, num: uint32)
    ensures var t, t' := TableOf(st.names, w), TableOf(Take(st, l, ok).names, w);
      && (num in t' <==> num in t || (ok && Lists(w, st.section, l, num)))
      && (num in t ==> t'[num] == t[num])
      && (num in t' && num !in t ==> HasSpec(l) && t'[num] == l.spec.name)
  {
    if HasSpec(l) {
      ListsProduct(st.section, l, num);
      ListsSubclass(st.section, l, num);
      ListsProtocol(st.section, l, num);
    }
  }

  predicate ListedAt(inputs: seq<Input>, i: nat, w: Which, num: uint32)
    requires i < |inputs|
  {
    inputs[i].allocOk && Lists(w, SectionAfter(inputs[..i]), LineOf(inputs, i), num)
  }

  /** After any file each of the tables holds exactly the numbers that some line with memory lists in the section that
      is open there, with the name of the first such line, i. */
  lemma {:induction false} HoldsFirstListed(inputs: seq<Input>, w: Which, num: uint32) returns (i: nat)
    ensures i <= |inputs| && forall j :: 0 <= j < i ==> !ListedAt(inputs, j, w, num)
    ensures i < |inputs| ==> ListedAt(inputs, i, w, num) && HasSpec(LineOf(inputs, i))
    ensures var t := TableOf(Parsed(inputs).names, w);
      && (num in t <==> i < |inputs|)
      && (num in t ==> t[num] == LineOf(inputs, i).spec.name)
  {
    if inputs == [] {
      return 0;
    }
    var before := inputs[..|inputs| - 1];
    i := HoldsFirstListed(before, w, num);
    forall j | 0 <= j < |before| ensures ListedAt(before, j, w, num) == ListedAt(inputs, j, w, num) {
      assert before[..j] == inputs[..j];
    }
    SectionIsOpen(before);
    StepStores(Parsed(before), LineOf(inputs, |before|), inputs[|before|].allocOk, w, num);
    if i == |before| && !ListedAt(inputs, i, w, num) {
      i := |inputs|;
    }
  }
}
