/** The five tables of names.c on the heap, and the loop that fills them. */
module NamesIndex {
  import opened Usb
  import opened NameTables
  import opened UsbIds

  class Index {
    const vendors: NameTable
    const products: NameTable
    const classes: NameTable
    const subclasses: NameTable
    const protocols: NameTable

    ghost function Repr(): set<object> {
      {vendors, products, classes, subclasses, protocols,
       vendors.buckets, products.buckets, classes.buckets, subclasses.buckets, protocols.buckets}
    }

    /** Five tables without a common array. */
    ghost predicate Valid()
      reads Repr()
    {
      && vendors.Valid() && products.Valid() && classes.Valid() && subclasses.Valid() && protocols.Valid()
      && vendors.buckets !in {products.buckets, classes.buckets, subclasses.buckets, protocols.buckets}
      && products.buckets !in {classes.buckets, subclasses.buckets, protocols.buckets}
      && classes.buckets !in {subclasses.buckets, protocols.buckets}
      && subclasses.buckets != protocols.buckets
      && vendors !in {products, classes, subclasses, protocols}
      && products !in {classes, subclasses, protocols}
      && classes !in {subclasses, protocols}
      && subclasses != protocols
    }

    ghost function Contents(): Names
      reads Repr()
    {
      Names(vendors.names, products.names, classes.names, subclasses.names, protocols.names)
    }

    constructor ()
      ensures Valid() && Contents() == NO_NAMES
    {
      vendors := new NameTable();
      products := new NameTable();
      classes := new NameTable();
      subclasses := new NameTable();
      protocols := new NameTable();
    }

    /** parse. Lines are what fgets delivers. */
    method Parse(inputs: seq<Input>)
      requires Valid()
      modifies Repr()
      ensures Valid()
      ensures Contents() == ParseLines(State(old(Contents()), CLOSED), inputs).names
    {
      var s := CLOSED;
      ghost var start := State(Contents(), CLOSED);
      for i := 0 to |inputs|
        invariant Valid()
        invariant State(Contents(), s) == ParseLines(start, inputs[..i])
      {
        assert inputs[..i + 1][..i] == inputs[..i];
        s := ParseOne(inputs[i], s);
      }
      assert inputs[..|inputs|] == inputs;
    }

    /** One turn of the loop. */
    method ParseOne(input: Input, s: Section) returns (s': Section)
      requires Valid()
      modifies Repr()
      ensures Valid()
      ensures State(Contents(), s') == ParseLine(State(old(Contents()), s), input)
    {
      s' := s;
      match Classify(input.line)
      case Skipped =>
      case LangLine => s' := CLOSED.(lang := 1);
      case HutLine => s' := CLOSED.(hut := 1);
      case ClassLine(NoSpec) =>
      case ClassLine(Spec(u, name)) =>
        var ret := classes.Insert(Id8(u), name, input.allocOk);
        s' := CLOSED.(class_ := AsInt(u));
      case VendorLine(NoSpec) =>
      case VendorLine(Spec(u, name)) =>
        var ret := vendors.Insert(Id16(u), name, input.allocOk);
        s' := CLOSED.(vendor := AsInt(u));
      case ItemLine(NoSpec) =>
      case ItemLine(Spec(u, name)) =>
        if s.vendor != -1 {
          var ret := products.Insert(ProductNum(s.vendor, u), name, input.allocOk);
        } else if s.class_ != -1 {
          var ret := subclasses.Insert(SubclassNum(s.class_, u), name, input.allocOk);
          s' := s.(subclass := AsInt(u));
        }
      case ProtocolLine(NoSpec) =>
      case ProtocolLine(Spec(u, name)) =>
        if s.class_ != -1 && s.subclass != -1 {
          var ret := protocols.Insert(ProtocolNum(s.class_, s.subclass, u), name, input.allocOk);
        }
    }

    /** names_product; the other four are like it. */
    method NamesProduct(vendorid: nat, productid: nat) returns (r: Option<string>)
      requires Valid() && vendorid < 0x1_0000 && productid < 0x1_0000
      ensures var num := ProductNum(vendorid, productid);
        r == if num in Contents().products then Some(Contents().products[num]) else None
    {
      r := products.Lookup(ProductNum(vendorid, productid));
    }
  }
}
