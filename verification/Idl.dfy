/** Types, fields and structs of the interface language, as the compiler's parser builds them. */
module Idl {
  import opened Wrappers
  import opened Wire

  datatype Base = VoidBase | StringBase | BinaryBase | BoolBase | ByteBase | I16Base | I32Base | I64Base | DoubleBase

  datatype IdlType =
    | BaseType(base: Base)
    | EnumType(name: string)
    | StructType(name: string)
    | Typedef(name: string, target: IdlType)
    | ListType(elem: IdlType)
    | SetType(elem: IdlType)
    | MapType(key: IdlType, val: IdlType)

  /** `get_name`: containers have none; a binary is a string by name. */
  function NameOf(t: IdlType): string {
    match t
    case BaseType(b) => BaseName(b)
    case EnumType(n) => n
    case StructType(n) => n
    case Typedef(n, _) => n
    case _ => ""
  }

  function BaseName(b: Base): string {
    match b
    case VoidBase => "void"
    case StringBase => "string"
    case BinaryBase => "string"
    case BoolBase => "bool"
    case ByteBase => "byte"
    case I16Base => "i16"
    case I32Base => "i32"
    case I64Base => "i64"
    case DoubleBase => "double"
  }

  /** The field information generated for a type: typedefs are resolved and an enum is an i32. */
  function InfoOf(t: IdlType): Info {
    match t
    case BaseType(b) => Prim(BaseWire(b))
    case EnumType(_) => Prim(TI32)
    case StructType(n) => Obj(n)
    case Typedef(_, target) => InfoOf(target)
    case ListType(e) => ListOf(InfoOf(e))
    case SetType(e) => SetOf(InfoOf(e))
    case MapType(k, v) => MapOf(InfoOf(k), InfoOf(v))
  }

  function BaseWire(b: Base): WireType {
    match b
    case VoidBase => TStop
    case StringBase | BinaryBase => TString
    case BoolBase => TBool
    case ByteBase => TByte
    case I16Base => TI16
    case I32Base => TI32
    case I64Base => TI64
    case DoubleBase => TDouble
  }

  /** The three kinds of requiredness; Default is T_OPT_IN_REQ_OUT. */
  datatype Req = Required | Optional | Default

  /** A field as it stands at one moment. */
  datatype Member = Member(key: int, name: string, ftype: IdlType, req: Req, value: Option<Value>)

  class TField {
    const ftype: IdlType
    const name: string
    const key: int
    const value: Option<Value>
    var req: Req

    constructor (ftype: IdlType, name: string, key: int, req: Req, value: Option<Value>)
      ensures this.ftype == ftype && this.name == name && this.key == key && this.req == req && this.value == value
    {
      this.ftype, this.name, this.key, this.req, this.value := ftype, name, key, req, value;
    }

    function View(): Member
      reads this
    {
      Member(key, name, ftype, req, value)
    }
  }

  // ----- lists of fields

  ghost predicate AscendingKeys(fs: seq<TField>) {
    forall i, j :: 0 <= i < j < |fs| ==> fs[i].key < fs[j].key
  }

  ghost predicate DistinctNames(fs: seq<TField>) {
    forall i, j :: 0 <= i < j < |fs| ==> fs[i].name != fs[j].name
  }

  function Defaulted(fs: seq<TField>): nat {
    if fs == [] then 0 else (if fs[0].value.Some? then 1 else 0) + Defaulted(fs[1..])
  }

  lemma {:induction false} DefaultedSplit(a: seq<TField>, b: seq<TField>)
    ensures Defaulted(a + b) == Defaulted(a) + Defaulted(b)
  {
    if a == [] {
      assert a + b == b;
    } else {
      assert (a + b)[1..] == a[1..] + b;
      DefaultedSplit(a[1..], b);
    }
  }

  lemma DefaultedOne(f: TField)
    ensures Defaulted([f]) == if f.value.Some? then 1 else 0
  {
    assert [f][1..] == [];
  }

  /** elem put at position i. */
  function Inserted(fs: seq<TField>, i: nat, elem: TField): seq<TField>
    requires i <= |fs|
  {
    fs[..i] + [elem] + fs[i..]
  }

  lemma InsertKeeps(fs: seq<TField>, i: nat, elem: TField)
    requires AscendingKeys(fs) && DistinctNames(fs) && i <= |fs|
    requires forall j :: 0 <= j < i ==> fs[j].key < elem.key
    requires forall j :: i <= j < |fs| ==> elem.key < fs[j].key
    requires forall j :: 0 <= j < |fs| ==> fs[j].name != elem.name
    ensures AscendingKeys(Inserted(fs, i, elem)) && DistinctNames(Inserted(fs, i, elem))
  {
  }

  lemma InsertCounts(fs: seq<TField>, i: nat, elem: TField)
    requires i <= |fs|
    ensures multiset(Inserted(fs, i, elem)) == multiset(fs) + multiset{elem}
    ensures Defaulted(Inserted(fs, i, elem)) == Defaulted(fs) + if elem.value.Some? then 1 else 0
    ensures forall f :: f in Inserted(fs, i, elem) <==> f in fs || f == elem
  {
    assert fs == fs[..i] + fs[i..];
    DefaultedSplit(fs[..i], fs[i..]);
    DefaultedSplit(fs[..i], [elem]);
    DefaultedSplit(fs[..i] + [elem], fs[i..]);
    DefaultedOne(elem);
    forall f
      ensures f in Inserted(fs, i, elem) <==> f in fs || f == elem
    {
      assert f in fs <==> f in fs[..i] || f in fs[i..];
    }
  }

  /** A struct as it stands at one moment, its fields by ascending key. */
  datatype StructDecl = StructDecl(name: string, isUnion: bool, fields: seq<Member>)

  /** What `append` does: the field is added, or refused, or added and then rejected by an exception. */
  datatype Appending = Added | Refused | Rejected

  class TStruct {
    var name: string
    var isUnion: bool
    var validated: bool
    var withValue: nat
    var members: seq<TField>
    var inIdOrder: seq<TField>

    constructor (name: string)
      ensures Valid() && UnionOk() && this.name == name && !isUnion && members == []
    {
      this.name := name;
      isUnion, validated, withValue := false, false, 0;
      members, inIdOrder := [], [];
    }

    /** The sorted list holds the members, by strictly ascending key and with distinct names. */
    ghost predicate Valid()
      reads `members, `inIdOrder
    {
      AscendingKeys(inIdOrder) && DistinctNames(inIdOrder) && multiset(members) == multiset(inIdOrder)
    }

    predicate Named()
      reads this
    {
      isUnion && name != ""
    }

    /** A named union has no required field and at most one default, and has counted it. */
    ghost predicate UnionOk()
      reads this, inIdOrder
    {
      if Named() then validated && withValue == Defaulted(inIdOrder) <= 1 && forall f :: f in inIdOrder ==> f.req != Required
      else !validated ==> withValue == 0
    }

    function View(): StructDecl
      reads this, inIdOrder
    {
      StructDecl(name, isUnion, seq(|inIdOrder|, i requires 0 <= i < |inIdOrder| reads this, inIdOrder => inIdOrder[i].View()))
    }

    /** `get_field_by_name`. */
    method GetFieldByName(n: string) returns (f: TField?)
      ensures f != null ==> f in inIdOrder && f.name == n
      ensures f == null ==> forall i :: 0 <= i < |inIdOrder| ==> inIdOrder[i].name != n
    {
      for i := 0 to |inIdOrder|
        invariant forall j :: 0 <= j < i ==> inIdOrder[j].name != n
      {
        if inIdOrder[i].name == n {
          return inIdOrder[i];
        }
      }
      return null;
    }

    /** `std::equal_range` by key. */
    method EqualRange(key: int) returns (lo: nat, hi: nat)
      requires Valid()
      ensures lo <= hi <= |inIdOrder|
      ensures forall i :: 0 <= i < lo ==> inIdOrder[i].key < key
      ensures forall i :: lo <= i < hi ==> inIdOrder[i].key == key
      ensures forall i :: hi <= i < |inIdOrder| ==> inIdOrder[i].key > key
    {
      lo, hi := 0, |inIdOrder|;
      while lo < hi
        invariant 0 <= lo <= hi <= |inIdOrder|
        invariant forall i :: 0 <= i < lo ==> inIdOrder[i].key < key
        invariant forall i :: hi <= i < |inIdOrder| ==> inIdOrder[i].key >= key
      {
        var mid := (lo + hi) / 2;
        if inIdOrder[mid].key < key {
          lo := mid + 1;
        } else {
          hi := mid;
        }
      }
      if hi < |inIdOrder| && inIdOrder[hi].key == key {
        hi := hi + 1;
      }
    }

    /** `validate_union_member`; false stands for the exception. */
    method ValidateUnionMember(field: TField) returns (ok: bool)
      modifies `withValue, field`req
      ensures var on := Named();
              && field.req == (if on && old(field.req) == Required then Optional else old(field.req))
              && withValue == old(withValue) + (if on && field.value.Some? then 1 else 0)
              && (ok <==> !(on && field.value.Some? && old(withValue) >= 1))
    {
      ok := true;
      if isUnion && name != "" {
        if field.req == Required {
          field.req := Optional;
        }
        if field.value.Some? {
          withValue := withValue + 1;
          if 1 < withValue {
            ok := false;
          }
        }
      }
    }

    /** A union that has got its name is checked once: two defaults are an error, and without one no field stays required. */
    twostate predicate Checked(ok: bool)
      reads this, inIdOrder
    {
      && inIdOrder == old(inIdOrder)
      && (!Named() || old(validated) ==>
            ok && validated == old(validated) && withValue == old(withValue) && forall f :: f in old(inIdOrder) ==> f.req == old(f.req))
      && (Named() && !old(validated) ==> (ok <==> Defaulted(inIdOrder) == 0 || old(withValue) + Defaulted(inIdOrder) <= 1))
      && (Named() && !old(validated) && ok ==>
            && validated && withValue == old(withValue) + Defaulted(inIdOrder)
            && forall f :: f in old(inIdOrder) ==> f.req == if old(f.req) == Required then Optional else old(f.req))
    }

    /** `validate_union_members`. */
    method ValidateUnionMembers() returns (ok: bool)
      requires Valid()
      modifies `withValue, `validated, set f | f in inIdOrder
      ensures Checked(ok)
    {
      ok := true;
      if isUnion && name != "" && !validated {
        var i: nat := 0;
        while i < |inIdOrder|
          invariant i <= |inIdOrder|
          invariant withValue == old(withValue) + Defaulted(inIdOrder[..i])
          invariant Defaulted(inIdOrder[..i]) == 0 || withValue <= 1
          invariant forall j :: 0 <= j < |inIdOrder| ==>
                      inIdOrder[j].req == if j < i && old(inIdOrder[j].req) == Required then Optional else old(inIdOrder[j].req)
        {
          CountNext(i);
          ok := ValidateUnionMember(inIdOrder[i]);
          if !ok {
            return;
          }
          i := i + 1;
        }
        assert inIdOrder[..i] == inIdOrder;
        validated := true;
      }
    }

    lemma CountNext(i: nat)
      requires i < |inIdOrder|
      ensures Defaulted(inIdOrder[..i + 1]) == Defaulted(inIdOrder[..i]) + if inIdOrder[i].value.Some? then 1 else 0
      ensures Defaulted(inIdOrder[..i + 1]) <= Defaulted(inIdOrder)
    {
      assert inIdOrder[..i + 1] == inIdOrder[..i] + [inIdOrder[i]];
      DefaultedSplit(inIdOrder[..i], [inIdOrder[i]]);
      DefaultedOne(inIdOrder[i]);
      assert inIdOrder == inIdOrder[..i + 1] + inIdOrder[i + 1..];
      DefaultedSplit(inIdOrder[..i + 1], inIdOrder[i + 1..]);
    }

    /** `set_union`. Turning a validated union off and on again would leave later fields unchecked. */
    method SetUnion(u: bool) returns (ok: bool)
      requires Valid()
      modifies this, inIdOrder
      ensures Valid() && isUnion == u && members == old(members) && inIdOrder == old(inIdOrder) && name == old(name)
      ensures Checked(ok)
      ensures ok && old(UnionOk()) && (u && old(validated) ==> old(isUnion)) ==> UnionOk()
    {
      isUnion := u;
      ok := ValidateUnionMembers();
    }

    /** `set_name`. */
    method SetName(n: string) returns (ok: bool)
      requires Valid()
      modifies this, inIdOrder
      ensures Valid() && name == n && members == old(members) && inIdOrder == old(inIdOrder) && isUnion == old(isUnion)
      ensures Checked(ok)
      ensures ok && old(UnionOk()) && (n != "" && old(validated) ==> old(name) != "") ==> UnionOk()
    {
      name := n;
      ok := ValidateUnionMembers();
    }

    /** Puts a field with a new key and name at its place. */
    method Place(elem: TField, at: nat)
      requires Valid() && at <= |inIdOrder|
      requires forall i :: 0 <= i < at ==> inIdOrder[i].key < elem.key
      requires forall i :: at <= i < |inIdOrder| ==> inIdOrder[i].key > elem.key
      requires forall i :: 0 <= i < |inIdOrder| ==> inIdOrder[i].name != elem.name
      modifies `members, `inIdOrder
      ensures Valid() && members == old(members) + [elem] && inIdOrder == Inserted(old(inIdOrder), at, elem)
      ensures Defaulted(inIdOrder) == Defaulted(old(inIdOrder)) + if elem.value.Some? then 1 else 0
      ensures forall f :: f in inIdOrder ==> f in old(inIdOrder) || f == elem
    {
      hide AscendingKeys, DistinctNames, Defaulted, Inserted;
      InsertKeeps(inIdOrder, at, elem);
      InsertCounts(inIdOrder, at, elem);
      members := members + [elem];
      inIdOrder := Inserted(inIdOrder, at, elem);
    }

    /** `append`: refused exactly when the key or the name is taken; otherwise the field takes its place by key. */
    method Append(elem: TField) returns (r: Appending)
      requires Valid()
      modifies `members, `inIdOrder, `withValue, elem`req
      ensures Valid()
      ensures r.Refused? <==> exists f :: f in old(inIdOrder) && (f.key == elem.key || f.name == elem.name)
      ensures r.Refused? ==> members == old(members) && inIdOrder == old(inIdOrder) && withValue == old(withValue) && elem.req == old(elem.req)
      ensures !r.Refused? ==>
                && members == old(members) + [elem]
                && (exists i: nat :: i <= |old(inIdOrder)| && inIdOrder == Inserted(old(inIdOrder), i, elem))
                && elem.req == (if Named() && old(elem.req) == Required then Optional else old(elem.req))
                && (r.Rejected? <==> Named() && elem.value.Some? && old(withValue) >= 1)
      ensures r.Added? && old(UnionOk()) ==> UnionOk()
    {
      hide Valid, Defaulted, Inserted;
      var lo, hi := EqualRange(elem.key);
      if lo != hi {
        assert inIdOrder[lo].key == elem.key;
        return Refused;
      }
      var same := GetFieldByName(elem.name);
      if same != null {
        return Refused;
      }
      Place(elem, hi);
      var ok := ValidateUnionMember(elem);
      r := if ok then Added else Rejected;
    }
  }
}
