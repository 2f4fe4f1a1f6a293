/** A reader with its own schema gets from a writer's tokens the writer's value, as far as it knows the fields. */
module Interop {
  import opened Wrappers
  import opened Wire

  ghost predicate KnownInfo(s: Schema, info: Info) {
    match info
    case Prim(t) => IsAtomic(t)
    case Obj(k) => k in s
    case ListOf(e) => KnownInfo(s, e)
    case SetOf(e) => KnownInfo(s, e)
    case MapOf(k, e) => KnownInfo(s, k) && KnownInfo(s, e)
  }

  ghost predicate Ascending(fs: seq<FieldDef>) {
    forall i, j :: 0 <= i < j < |fs| ==> fs[i].fid < fs[j].fid
  }

  /** Every class lists its fields by ascending id, and every type it mentions is known. */
  ghost predicate GoodSchema(s: Schema) {
    forall k :: k in s ==> Ascending(s[k].fields) && forall f :: f in s[k].fields ==> KnownInfo(s, f.info)
  }

  lemma Assoc(a: seq<Token>, b: seq<Token>, c: seq<Token>)
    ensures a + b + c == a + (b + c)
  {
  }

  // ----- what is written can be skipped

  lemma {:induction false} SkipsAny(s: Schema, info: Info, v: Value, rest: seq<Token>)
    requires GoodSchema(s) && KnownInfo(s, info) && WriteAny(s, info, v).Ok?
    ensures Skip(TypeOf(info), WriteAny(s, info, v).value + rest) == Ok(rest)
    decreases v, 2
  {
    hide WriteElems, WritePairs, WriteFields, SkipElems, SkipPairs, SkipFields;
    var ts := WriteAny(s, info, v).value;
    match info
    case Prim(t) =>
      assert (ts + rest)[1..] == rest;
    case ListOf(e) =>
      SkipsElems(s, e, v.es, rest);
      assert (ts + rest)[1..] == WriteElems(s, e, v.es).value + rest;
    case SetOf(e) =>
      SkipsElems(s, e, v.es, rest);
      assert (ts + rest)[1..] == WriteElems(s, e, v.es).value + rest;
    case MapOf(k, e) =>
      SkipsPairs(s, k, e, v.ps, rest);
      assert (ts + rest)[1..] == WritePairs(s, k, e, v.ps).value + rest;
    case Obj(k) =>
      SkipsFields(s, s[k].fields, v, rest);
      Assoc(WriteFields(s, s[k].fields, v).value, [Stop], rest);
  }

  lemma {:induction false} SkipsElems(s: Schema, e: Info, es: seq<Value>, rest: seq<Token>)
    requires GoodSchema(s) && KnownInfo(s, e) && WriteElems(s, e, es).Ok?
    ensures SkipElems(TypeOf(e), |es|, WriteElems(s, e, es).value + rest) == Ok(rest)
    decreases es, 0
  {
    if es == [] {
      assert WriteElems(s, e, es).value + rest == rest;
    } else {
      var a, b := WriteAny(s, e, es[0]).value, WriteElems(s, e, es[1..]).value;
      SkipsElems(s, e, es[1..], rest);
      SkipsAny(s, e, es[0], b + rest);
      Assoc(a, b, rest);
    }
  }

  lemma {:induction false} SkipsPairs(s: Schema, k: Info, e: Info, ps: seq<(Value, Value)>, rest: seq<Token>)
    requires GoodSchema(s) && KnownInfo(s, k) && KnownInfo(s, e) && WritePairs(s, k, e, ps).Ok?
    ensures SkipPairs(TypeOf(k), TypeOf(e), |ps|, WritePairs(s, k, e, ps).value + rest) == Ok(rest)
    decreases ps, 0
  {
    if ps == [] {
      assert WritePairs(s, k, e, ps).value + rest == rest;
    } else {
      var b := WritePairs(s, k, e, ps[1..]).value;
      SkipsPairs(s, k, e, ps[1..], rest);
      SkipsPair(s, k, e, ps[0], b + rest);
      Assoc(WritePair(s, k, e, ps[0]).value, b, rest);
    }
  }

  lemma {:induction false} SkipsPair(s: Schema, k: Info, e: Info, p: (Value, Value), rest: seq<Token>)
    requires GoodSchema(s) && KnownInfo(s, k) && KnownInfo(s, e) && WritePair(s, k, e, p).Ok?
    ensures var q := Skip(TypeOf(k), WritePair(s, k, e, p).value + rest); q.Ok? && Skip(TypeOf(e), q.value) == Ok(rest)
    decreases p, 3
  {
    var x, y := WriteAny(s, k, p.0).value, WriteAny(s, e, p.1).value;
    SkipsAny(s, k, p.0, y + rest);
    SkipsAny(s, e, p.1, rest);
    Assoc(x, y, rest);
  }

  lemma SkipFieldsStep(ts: seq<Token>, rest: seq<Token>)
    requires AtField(ts) && Skip(ts[0].ftype, ts[1..]) == Ok(rest)
    ensures SkipFields(ts) == SkipFields(rest)
  {
    hide Skip;
  }

  lemma SkipFieldsEnd(rest: seq<Token>)
    ensures SkipFields([Stop] + rest) == Ok(rest)
  {
    assert ([Stop] + rest)[1..] == rest;
  }

  lemma {:induction false} SkipsFields(s: Schema, fs: seq<FieldDef>, v: Value, rest: seq<Token>)
    requires GoodSchema(s) && v.VObj? && WriteFields(s, fs, v).Ok? && forall f :: f in fs ==> KnownInfo(s, f.info)
    ensures SkipFields(WriteFields(s, fs, v).value + ([Stop] + rest)) == Ok(rest)
    decreases v, 0, |fs|
  {
    hide WriteAny, Skip, SkipFields, WriteFields, GoodSchema, KnownInfo;
    var end := [Stop] + rest;
    if fs == [] {
      NoFields(s, v, end);
      SkipFieldsEnd(rest);
    } else if !IsSet(v.fields, fs[0].fid) {
      UnsetTokens(s, fs, v);
      SkipsFields(s, fs[1..], v, rest);
    } else {
      var f := fs[0];
      FieldTokens(s, fs, v, end);
      var b := WriteFields(s, fs[1..], v).value;
      SkipsFields(s, fs[1..], v, rest);
      SkipsAny(s, f.info, v.fields[f.fid], b + end);
      TypeNotStop(s, f.info);
      SkipFieldsStep(WriteFields(s, fs, v).value + end, b + end);
    }
  }

  lemma TypeNotStop(s: Schema, info: Info)
    requires KnownInfo(s, info)
    ensures TypeOf(info) != TStop
  {
  }

  // ----- new instances

  /** A new instance of a struct holds exactly the declared defaults, one of a union nothing. */
  lemma NewHoldsDefaults(s: Schema, k: string, fid: int)
    requires GoodSchema(s) && k in s
    ensures var f := FieldAt(s[k].fields, fid);
            if !s[k].isUnion && f.Some? && f.value.default.Some? && !f.value.default.value.VNil? then
              fid in New(s, k).fields && New(s, k).fields[fid] == f.value.default.value
            else fid !in New(s, k).fields
  {
    DefaultAt(s[k].fields, fid);
  }

  lemma {:induction false} DefaultAt(fs: seq<FieldDef>, fid: int)
    requires Ascending(fs)
    ensures var f := FieldAt(fs, fid);
            if f.Some? && f.value.default.Some? && !f.value.default.value.VNil? then fid in Defaults(fs) && Defaults(fs)[fid] == f.value.default.value
            else fid !in Defaults(fs)
  {
    if fs != [] {
      DefaultAt(fs[1..], fid);
    }
  }

  // ----- what the reader gets

  predicate Has(fs: seq<FieldDef>, fid: int) {
    FieldAt(fs, fid).Some?
  }

  /** The writer's value as the reader sees it: fields the reader does not know are gone, absent ones take its defaults. */
  function Convert(w: Schema, r: Schema, info: Info, v: Value): Value
    decreases v
  {
    match v
    case VList(es) =>
      if info.ListOf? then VList(seq(|es|, i requires 0 <= i < |es| => Convert(w, r, info.elem, es[i]))) else v
    case VSet(es) =>
      if info.SetOf? then VSet(seq(|es|, i requires 0 <= i < |es| => Convert(w, r, info.elem, es[i]))) else v
    case VHash(ps) =>
      if info.MapOf? then
        VHash(seq(|ps|, i requires 0 <= i < |ps| => (Convert(w, r, info.key, ps[i].0), Convert(w, r, info.elem, ps[i].1))))
      else v
    case VObj(k, fields) =>
      if k in w && k in r then
        VObj(k, New(r, k).fields + map fid | fid in fields && Shared(w, r, k, fid) :: Convert(w, r, FieldAt(w[k].fields, fid).value.info, fields[fid]))
      else v
    case _ => v
  }

  predicate Shared(w: Schema, r: Schema, k: string, fid: int)
    requires k in w && k in r
  {
    Has(w[k].fields, fid) && Has(r[k].fields, fid)
  }

  /** Keys that are told apart. */
  ghost predicate Apart(s: Schema, es: seq<Value>) {
    forall i, j :: 0 <= i < j < |es| ==> !SameKey(s, es[i], es[j])
  }

  function Keys(ps: seq<(Value, Value)>): seq<Value> {
    seq(|ps|, i requires 0 <= i < |ps| => ps[i].0)
  }

  /** A value as Ruby holds it: no duplicate keys, and only known fields, none of them nil. */
  ghost predicate Proper(s: Schema, info: Info, v: Value)
    decreases v
  {
    match v
    case VList(es) => info.ListOf? ==> forall i :: 0 <= i < |es| ==> Proper(s, info.elem, es[i])
    case VSet(es) => info.SetOf? ==> Apart(s, es) && forall i :: 0 <= i < |es| ==> Proper(s, info.elem, es[i])
    case VHash(ps) =>
      info.MapOf? ==> Apart(s, Keys(ps)) && forall i :: 0 <= i < |ps| ==> Proper(s, info.key, ps[i].0) && Proper(s, info.elem, ps[i].1)
    case VObj(k, fields) =>
      info.Obj? && k in s ==> forall fid :: fid in fields ==>
        !fields[fid].VNil? && Has(s[k].fields, fid) && Proper(s, FieldAt(s[k].fields, fid).value.info, fields[fid])
    case _ => true
  }

  // ----- which types of a reader fit a written value

  /** The reader has an element type of the announced wire type. */
  predicate ElementFits(e: Info, ri: Info) {
    Element(ri).Some? && TypeOf(Element(ri).value) == TypeOf(e)
  }

  /** A list or set of other elements is skipped, and read as nil. */
  predicate Dropped(wi: Info, ri: Info) {
    (wi.ListOf? || wi.SetOf?) && !ElementFits(wi.elem, ri)
  }

  /**
   * A value written as wi can be read as ri: lists and sets need elements of the same wire type, hashes are read by the
   * types the stream announces, objects need the same class, and a union the one field that is set.
   */
  ghost predicate Fits(w: Schema, r: Schema, wi: Info, ri: Info, v: Value)
    decreases v, 0
  {
    match v
    case VList(es) =>
      wi.ListOf? ==> ElementFits(wi.elem, ri) && forall i :: 0 <= i < |es| ==> Fits(w, r, wi.elem, Element(ri).value, es[i])
    case VSet(es) =>
      wi.SetOf? ==> ElementFits(wi.elem, ri) && forall i :: 0 <= i < |es| ==> Fits(w, r, wi.elem, Element(ri).value, es[i])
    case VHash(ps) =>
      wi.MapOf? ==> ri.MapOf? && forall i :: 0 <= i < |ps| ==> Fits(w, r, wi.key, ri.key, ps[i].0) && Fits(w, r, wi.elem, ri.elem, ps[i].1)
    case VObj(k, fields) =>
      wi.Obj? && k in w ==>
        && ri == Obj(k) && k in r
        && (r[k].isUnion ==> AtMostOne(fields) && forall fid :: fid in fields ==> Has(r[k].fields, fid))
        && forall fid :: fid in fields && Shared(w, r, k, fid) ==> FieldFits(w, r, k, fid, fields[fid])
    case _ => true
  }

  ghost predicate AtMostOne(fields: map<int, Value>) {
    forall f, g :: f in fields && g in fields ==> f == g
  }

  /** A struct's fields must have the announced type; a value that is dropped there is only missed if the default differs. */
  ghost predicate FieldFits(w: Schema, r: Schema, k: string, fid: int, u: Value)
    requires k in w && k in r && Shared(w, r, k, fid)
    decreases u, 1
  {
    var wi, ri := FieldAt(w[k].fields, fid).value.info, FieldAt(r[k].fields, fid).value.info;
    if r[k].isUnion then Fits(w, r, wi, ri, u)
    else TypeOf(wi) == TypeOf(ri) && (Fits(w, r, wi, ri, u) || Replaced(w, r, k, fid, u))
  }

  /** A dropped value that the reader's default happens to replace. */
  ghost predicate Replaced(w: Schema, r: Schema, k: string, fid: int, u: Value)
    requires k in w && k in r && Shared(w, r, k, fid)
  {
    var wi, ri := FieldAt(w[k].fields, fid).value.info, FieldAt(r[k].fields, fid).value.info;
    Dropped(wi, ri) && fid in New(r, k).fields && New(r, k).fields[fid] == Convert(w, r, wi, u)
  }

  /** Classes that both schemas have are unions in both or in neither. */
  ghost predicate SameKinds(w: Schema, r: Schema) {
    forall k :: k in w && k in r ==> w[k].isUnion == r[k].isUnion
  }

  ghost predicate Setting(w: Schema, r: Schema) {
    GoodSchema(w) && GoodSchema(r) && SameKinds(w, r)
  }

  /** A proper value that the writer accepts. */
  ghost predicate Sent(w: Schema, wi: Info, v: Value) {
    KnownInfo(w, wi) && Proper(w, wi, v) && WriteAny(w, wi, v).Ok?
  }

  ghost predicate Sendable(w: Schema, r: Schema, wi: Info, ri: Info, v: Value) {
    Sent(w, wi, v) && Fits(w, r, wi, ri, v)
  }

  // ----- the parts of a written value

  lemma {:induction false} ElemsWritten(s: Schema, e: Info, es: seq<Value>, i: nat)
    requires WriteElems(s, e, es).Ok? && i < |es|
    ensures WriteAny(s, e, es[i]).Ok?
  {
    if i > 0 {
      ElemsWritten(s, e, es[1..], i - 1);
    }
  }

  lemma {:induction false} PairsWritten(s: Schema, k: Info, e: Info, ps: seq<(Value, Value)>, i: nat)
    requires WritePairs(s, k, e, ps).Ok? && i < |ps|
    ensures WriteAny(s, k, ps[i].0).Ok? && WriteAny(s, e, ps[i].1).Ok?
  {
    if i > 0 {
      PairsWritten(s, k, e, ps[1..], i - 1);
    }
  }

  lemma {:induction false} FieldsWritten(s: Schema, fs: seq<FieldDef>, v: Value, i: nat)
    requires v.VObj? && WriteFields(s, fs, v).Ok? && i < |fs| && IsSet(v.fields, fs[i].fid)
    ensures WriteAny(s, fs[i].info, v.fields[fs[i].fid]).Ok?
    decreases |fs|
  {
    if i > 0 {
      FieldsWritten(s, fs[1..], v, i - 1);
    }
  }

  function Container(e: Info, v: Value): Info {
    if v.VList? then ListOf(e) else SetOf(e)
  }

  lemma ListSent(w: Schema, e: Info, v: Value)
    requires v.VList? || v.VSet?
    requires Sent(w, Container(e, v), v)
    ensures WriteElems(w, e, v.es).Ok? && (forall i :: 0 <= i < |v.es| ==> Sent(w, e, v.es[i])) && (v.VSet? ==> Apart(w, v.es))
    ensures WriteAny(w, Container(e, v), v).Ok? && WriteAny(w, Container(e, v), v).value == [ListHead(TypeOf(e), |v.es|)] + WriteElems(w, e, v.es).value
    ensures KnownInfo(w, e)
  {
    hide WriteElems, SameKey;
    assert WriteElems(w, e, v.es).Ok?;
    ListParts(w, e, v);
    forall i | 0 <= i < |v.es|
      ensures Sent(w, e, v.es[i])
    {
      ElemsWritten(w, e, v.es, i);
    }
  }

  lemma ListParts(w: Schema, e: Info, v: Value)
    requires v.VList? || v.VSet?
    requires Proper(w, Container(e, v), v)
    ensures forall i :: 0 <= i < |v.es| ==> Proper(w, e, v.es[i])
  {
  }

  lemma HashSent(w: Schema, k: Info, e: Info, v: Value)
    requires Sent(w, MapOf(k, e), v)
    ensures v.VHash? && WritePairs(w, k, e, v.ps).Ok? && Apart(w, Keys(v.ps))
    ensures forall i :: 0 <= i < |v.ps| ==> Sent(w, k, v.ps[i].0) && Sent(w, e, v.ps[i].1)
    ensures WriteAny(w, MapOf(k, e), v).Ok? && WriteAny(w, MapOf(k, e), v).value == [MapHead(TypeOf(k), TypeOf(e), |v.ps|)] + WritePairs(w, k, e, v.ps).value
    ensures KnownInfo(w, k) && KnownInfo(w, e)
  {
    hide WritePairs, SameKey;
    forall i | 0 <= i < |v.ps|
      ensures Sent(w, k, v.ps[i].0) && Sent(w, e, v.ps[i].1)
    {
      PairsWritten(w, k, e, v.ps, i);
    }
  }

  lemma ObjSent(w: Schema, k: string, v: Value)
    requires Sent(w, Obj(k), v)
    ensures v.VObj? && v.klass == k && k in w && WriteFields(w, w[k].fields, v).Ok?
    ensures WriteAny(w, Obj(k), v).Ok? && WriteAny(w, Obj(k), v).value == WriteFields(w, w[k].fields, v).value + [Stop]
    ensures forall fid :: fid in v.fields ==> !v.fields[fid].VNil? && Has(w[k].fields, fid) && Proper(w, FieldAt(w[k].fields, fid).value.info, v.fields[fid])
  {
    hide WriteFields, FieldAt;
    assert WriteAny(w, Obj(k), v) == Then(WriteStruct(w, k, v), [Stop]);
    assert WriteStruct(w, k, v) == if !MandatorySet(w[k].fields, v.fields) then Err(MissingMandatory) else WriteFields(w, w[k].fields, v);
  }

  /** A field that is set was written, as the writer's class says. */
  lemma FieldSent(w: Schema, k: string, v: Value, fid: int)
    requires GoodSchema(w) && Sent(w, Obj(k), v) && v.VObj? && k in w && fid in v.fields && Has(w[k].fields, fid)
    ensures Sent(w, FieldAt(w[k].fields, fid).value.info, v.fields[fid])
  {
    hide WriteFields, Proper, KnownInfo, FieldAt, WriteAny;
    ObjSent(w, k, v);
    var f := FieldAt(w[k].fields, fid).value;
    KnownField(w, k, f);
    var i :| 0 <= i < |w[k].fields| && w[k].fields[i] == f;
    FieldsWritten(w, w[k].fields, v, i);
  }

  // ----- keys that were apart stay apart

  /** What is compared by value is read back as it was. */
  lemma {:induction false} ByValueSame(w: Schema, r: Schema, wi: Info, ri: Info, v: Value)
    requires Setting(w, r) && Sendable(w, r, wi, ri, v) && !ByIdentity(r, Convert(w, r, wi, v))
    ensures Convert(w, r, wi, v) == v && !ByIdentity(w, v)
    decreases v, 2
  {
    hide Setting, Proper, KnownInfo, Convert, ByIdentity, Fits;
    match wi
    case ListOf(e) => ByValueList(w, r, e, ri, v);
    case SetOf(e) => ByValueList(w, r, e, ri, v);
    case MapOf(k, e) => ByValueHash(w, r, k, e, ri, v);
    case Obj(k) => ByValueFields(w, r, k, ri, v);
    case Prim(t) => ByValueAtom(w, r, t, v);
  }

  lemma ByValueAtom(w: Schema, r: Schema, t: WireType, v: Value)
    requires Sent(w, Prim(t), v)
    ensures Convert(w, r, Prim(t), v) == v && !ByIdentity(w, v)
  {
  }

  lemma {:induction false} ByValueList(w: Schema, r: Schema, e: Info, ri: Info, v: Value)
    requires v.VList? || v.VSet?
    requires Setting(w, r) && Sendable(w, r, Container(e, v), ri, v) && !ByIdentity(r, Convert(w, r, Container(e, v), v))
    ensures Convert(w, r, Container(e, v), v) == v && !ByIdentity(w, v)
    decreases v, 1
  {
    hide Setting, Sent, Apart, Element;
    ListSent(w, e, v);
    var c := Convert(w, r, Container(e, v), v);
    forall i | 0 <= i < |v.es|
      ensures c.es[i] == v.es[i] && !ByIdentity(w, v.es[i])
    {
      assert c.es[i] == Convert(w, r, e, v.es[i]);
      ByValueSame(w, r, e, Element(ri).value, v.es[i]);
    }
    assert c.es == v.es;
  }

  lemma {:induction false} ByValueHash(w: Schema, r: Schema, k: Info, e: Info, ri: Info, v: Value)
    requires Setting(w, r) && Sendable(w, r, MapOf(k, e), ri, v) && !ByIdentity(r, Convert(w, r, MapOf(k, e), v))
    ensures Convert(w, r, MapOf(k, e), v) == v && !ByIdentity(w, v)
    decreases v, 1
  {
    hide Setting, Sent, Apart;
    HashSent(w, k, e, v);
    var c := Convert(w, r, MapOf(k, e), v);
    forall i | 0 <= i < |v.ps|
      ensures c.ps[i] == v.ps[i] && !ByIdentity(w, v.ps[i].0) && !ByIdentity(w, v.ps[i].1)
    {
      assert c.ps[i] == (Convert(w, r, k, v.ps[i].0), Convert(w, r, e, v.ps[i].1));
      ByValuePair(w, r, k, e, ri.key, ri.elem, v.ps[i]);
    }
    assert c.ps == v.ps;
  }

  lemma {:induction false} ByValuePair(w: Schema, r: Schema, k: Info, e: Info, k': Info, e': Info, p: (Value, Value))
    requires Setting(w, r) && Sendable(w, r, k, k', p.0) && Sendable(w, r, e, e', p.1)
    requires !ByIdentity(r, Convert(w, r, k, p.0)) && !ByIdentity(r, Convert(w, r, e, p.1))
    ensures Convert(w, r, k, p.0) == p.0 && Convert(w, r, e, p.1) == p.1 && !ByIdentity(w, p.0) && !ByIdentity(w, p.1)
    decreases p, 3
  {
    hide Setting, Sendable, Convert, ByIdentity;
    ByValueSame(w, r, k, k', p.0);
    ByValueSame(w, r, e, e', p.1);
  }

  /** A union compared by value: the reader knows its field. */
  lemma {:induction false} ByValueFields(w: Schema, r: Schema, k: string, ri: Info, v: Value)
    requires Setting(w, r) && Sendable(w, r, Obj(k), ri, v) && !ByIdentity(r, Convert(w, r, Obj(k), v))
    ensures Convert(w, r, Obj(k), v) == v && !ByIdentity(w, v)
    decreases v, 1
  {
    hide Sent, FieldAt, Setting, Fits, Shared, New, Has, FieldFits, Convert, ByIdentity;
    ObjSent(w, k, v);
    ObjFits(w, r, k, ri, v);
    UnionByValue(w, r, k, v);
    var c := Convert(w, r, Obj(k), v);
    forall fid | fid in v.fields
      ensures fid in c.fields && c.fields[fid] == v.fields[fid] && !ByIdentity(w, v.fields[fid])
    {
      FieldByValue(w, r, k, v, fid);
    }
    assert c.fields.Keys == v.fields.Keys;
    assert c.fields == v.fields;
    NotByIdentity(w, v);
  }

  lemma NotByIdentity(s: Schema, v: Value)
    requires v.VObj? && v.klass in s && s[v.klass].isUnion && forall fid :: fid in v.fields ==> !ByIdentity(s, v.fields[fid])
    ensures !ByIdentity(s, v)
  {
  }

  lemma UnionByValue(w: Schema, r: Schema, k: string, v: Value)
    requires Setting(w, r) && v.VObj? && v.klass == k && k in w && k in r && !ByIdentity(r, Convert(w, r, Obj(k), v))
    ensures var c := Convert(w, r, Obj(k), v);
            && r[k].isUnion && w[k].isUnion && c.VObj? && c.klass == k && (forall fid :: fid in c.fields ==> !ByIdentity(r, c.fields[fid]))
            && c.fields.Keys == set fid | fid in v.fields && Shared(w, r, k, fid)
    ensures forall fid :: fid in v.fields && Shared(w, r, k, fid) ==>
              Convert(w, r, Obj(k), v).fields[fid] == Convert(w, r, FieldAt(w[k].fields, fid).value.info, v.fields[fid])
  {
    hide GoodSchema, FieldAt, Shared;
  }

  lemma {:induction false} FieldByValue(w: Schema, r: Schema, k: string, v: Value, fid: int)
    requires Setting(w, r) && Sendable(w, r, Obj(k), Obj(k), v) && v.VObj? && v.klass == k && k in w && k in r
    requires !ByIdentity(r, Convert(w, r, Obj(k), v)) && fid in v.fields
    ensures var c := Convert(w, r, Obj(k), v); fid in c.fields && c.fields[fid] == v.fields[fid] && !ByIdentity(w, v.fields[fid])
    decreases v.fields[fid], 3
  {
    hide Sent, FieldAt, Setting, Convert, ByIdentity, Fits;
    ObjSent(w, k, v);
    ObjFits(w, r, k, Obj(k), v);
    UnionByValue(w, r, k, v);
    SettingGood(w, r);
    IsShared(w, r, k, fid);
    FieldSent(w, k, v, fid);
    ByValueSame(w, r, FieldAt(w[k].fields, fid).value.info, FieldAt(r[k].fields, fid).value.info, v.fields[fid]);
  }

  function ConvertAll(w: Schema, r: Schema, e: Info, es: seq<Value>): seq<Value> {
    seq(|es|, i requires 0 <= i < |es| => Convert(w, r, e, es[i]))
  }

  function ConvertPairs(w: Schema, r: Schema, k: Info, e: Info, ps: seq<(Value, Value)>): seq<(Value, Value)> {
    seq(|ps|, i requires 0 <= i < |ps| => (Convert(w, r, k, ps[i].0), Convert(w, r, e, ps[i].1)))
  }

  lemma SameKeyBefore(w: Schema, r: Schema, e: Info, e': Info, a: Value, b: Value)
    requires Setting(w, r) && Sendable(w, r, e, e', a) && Sendable(w, r, e, e', b) && SameKey(r, Convert(w, r, e, a), Convert(w, r, e, b))
    ensures SameKey(w, a, b)
  {
    hide ByIdentity, Convert, Sendable, Setting;
    ByValueSame(w, r, e, e', a);
    ByValueSame(w, r, e, e', b);
  }

  lemma ApartAfter(w: Schema, r: Schema, e: Info, e': Info, es: seq<Value>)
    requires Setting(w, r) && Apart(w, es) && forall i :: 0 <= i < |es| ==> Sendable(w, r, e, e', es[i])
    ensures Apart(r, ConvertAll(w, r, e, es))
  {
    hide SameKey, Convert, Sendable;
    var cs := ConvertAll(w, r, e, es);
    forall i, j | 0 <= i < j < |cs|
      ensures !SameKey(r, cs[i], cs[j])
    {
      if SameKey(r, cs[i], cs[j]) {
        SameKeyBefore(w, r, e, e', es[i], es[j]);
      }
    }
  }

  lemma KeysApart(w: Schema, r: Schema, k: Info, k': Info, e: Info, ps: seq<(Value, Value)>)
    requires Setting(w, r) && Apart(w, Keys(ps)) && forall i :: 0 <= i < |ps| ==> Sendable(w, r, k, k', ps[i].0)
    ensures Apart(r, Keys(ConvertPairs(w, r, k, e, ps)))
  {
    hide SameKey, Convert, Sendable, Setting;
    ApartAfter(w, r, k, k', Keys(ps));
    assert Keys(ConvertPairs(w, r, k, e, ps)) == ConvertAll(w, r, k, Keys(ps));
  }

  lemma {:induction false} DistinctApart(s: Schema, es: seq<Value>)
    requires Apart(s, es)
    ensures Distinct(s, es) == es
  {
    hide SameKey;
    if es != [] {
      DistinctApart(s, es[..|es| - 1]);
    }
  }

  lemma {:induction false} PutApart(s: Schema, ps: seq<(Value, Value)>, k: Value, v: Value)
    requires forall i :: 0 <= i < |ps| ==> !SameKey(s, ps[i].0, k)
    ensures PutPair(s, ps, k, v) == ps + [(k, v)]
  {
    hide SameKey;
    if ps != [] {
      PutApart(s, ps[1..], k, v);
    }
  }

  lemma PutNew(r: Schema, done: seq<(Value, Value)>, c: (Value, Value), more: seq<(Value, Value)>)
    requires Apart(r, Keys(done + ([c] + more)))
    ensures PutPair(r, done, c.0, c.1) == done + [c]
  {
    hide SameKey, PutPair;
    var all := Keys(done + ([c] + more));
    forall i | 0 <= i < |done|
      ensures !SameKey(r, done[i].0, c.0)
    {
      assert all[i] == done[i].0 && all[|done|] == c.0;
    }
    PutApart(r, done, c.0, c.1);
  }

  // ----- reading back

  /** Reading a written value as a type that fits gives it as the reader sees it, and consumes exactly that. */
  lemma {:induction false} ReadsAny(w: Schema, r: Schema, wi: Info, ri: Info, v: Value, rest: seq<Token>)
    requires Setting(w, r) && Sendable(w, r, wi, ri, v)
    ensures ReadAny(r, TypeOf(wi), ri, WriteAny(w, wi, v).value + rest) == Ok((Convert(w, r, wi, v), rest))
    decreases v, 2
  {
    hide Setting, Proper, Convert, Fits, KnownInfo, ReadAny, ReadElems, WriteElems, WritePairs, WriteStruct;
    match wi
    case Prim(t) => ReadsAtom(w, r, t, ri, v, rest);
    case ListOf(e) => ReadsList(w, r, e, ri, v, rest);
    case SetOf(e) => ReadsList(w, r, e, ri, v, rest);
    case MapOf(k, e) => ReadsHash(w, r, k, e, ri, v, rest);
    case Obj(k) => ReadsObj(w, r, k, ri, v, rest);
  }

  lemma ReadsAtom(w: Schema, r: Schema, t: WireType, ri: Info, v: Value, rest: seq<Token>)
    requires Sent(w, Prim(t), v)
    ensures ReadAny(r, t, ri, WriteAny(w, Prim(t), v).value + rest) == Ok((v, rest)) && Convert(w, r, Prim(t), v) == v
  {
    var ts := WriteAny(w, Prim(t), v).value + rest;
    assert ts[1..] == rest;
  }

  /** One list or set of the reader's element type. */
  lemma ListRead(r: Schema, t: WireType, ri: Info, e: Info, n: nat, ts: seq<Token>, cs: seq<Value>, rest: seq<Token>)
    requires (t == TList || t == TSet) && ElementFits(e, ri)
    requires ts != [] && ts[0] == ListHead(TypeOf(e), n) && ReadElems(r, Element(ri).value, n, [], ts[1..]) == Ok((cs, rest))
    ensures ReadAny(r, t, ri, ts) == Ok((Collected(r, t, cs), rest))
  {
    hide ReadElems, Distinct;
  }

  lemma ListFits(w: Schema, r: Schema, e: Info, ri: Info, v: Value)
    requires v.VList? || v.VSet?
    ensures Fits(w, r, Container(e, v), ri, v) <==> ElementFits(e, ri) && forall i :: 0 <= i < |v.es| ==> Fits(w, r, e, Element(ri).value, v.es[i])
    ensures Convert(w, r, Container(e, v), v) == if v.VList? then VList(ConvertAll(w, r, e, v.es)) else VSet(ConvertAll(w, r, e, v.es))
  {
  }

  lemma {:induction false} ReadsList(w: Schema, r: Schema, e: Info, ri: Info, v: Value, rest: seq<Token>)
    requires v.VList? || v.VSet?
    requires Setting(w, r) && Sendable(w, r, Container(e, v), ri, v)
    ensures ReadAny(r, TypeOf(Container(e, v)), ri, WriteAny(w, Container(e, v), v).value + rest)
         == Ok((Convert(w, r, Container(e, v), v), rest))
    decreases v, 1
  {
    hide Setting, Sent, SameKey, Distinct, ReadAny, WriteAny, WriteElems, ReadElems, Convert, Apart, Fits, Element, TypeOf;
    ListSent(w, e, v);
    ListFits(w, r, e, ri, v);
    var b := WriteElems(w, e, v.es).value;
    var cs := ConvertAll(w, r, e, v.es);
    var t := TypeOf(Container(e, v));
    var ts := WriteAny(w, Container(e, v), v).value + rest;
    assert ts[1..] == b + rest;
    var e' := Element(ri).value;
    ReadsElems(w, r, e, e', v.es, [], rest);
    assert [] + cs == cs;
    ContainerType(e, v);
    ListRead(r, t, ri, e, |v.es|, ts, cs, rest);
    if v.VSet? {
      ApartAfter(w, r, e, e', v.es);
      DistinctApart(r, cs);
    }
  }

  lemma ContainerType(e: Info, v: Value)
    ensures TypeOf(Container(e, v)) == if v.VList? then TList else TSet
  {
  }

  lemma ElemsStep(w: Schema, e: Info, es: seq<Value>)
    requires es != [] && WriteElems(w, e, es).Ok?
    ensures WriteAny(w, e, es[0]).Ok? && WriteElems(w, e, es[1..]).Ok?
    ensures WriteElems(w, e, es).value == WriteAny(w, e, es[0]).value + WriteElems(w, e, es[1..]).value
  {
    hide WriteAny;
  }

  lemma ElemsRead(r: Schema, e': Info, n: nat, done: seq<Value>, ts: seq<Token>, c: Value, rest: seq<Token>)
    requires n > 0 && ReadAny(r, TypeOf(e'), e', ts) == Ok((c, rest))
    ensures ReadElems(r, e', n, done, ts) == ReadElems(r, e', n - 1, done + [c], rest)
  {
    hide ReadAny;
  }

  lemma {:induction false} ReadsElems(w: Schema, r: Schema, e: Info, e': Info, es: seq<Value>, done: seq<Value>, rest: seq<Token>)
    requires Setting(w, r) && TypeOf(e') == TypeOf(e) && WriteElems(w, e, es).Ok? && forall i :: 0 <= i < |es| ==> Sendable(w, r, e, e', es[i])
    ensures ReadElems(r, e', |es|, done, WriteElems(w, e, es).value + rest) == Ok((done + ConvertAll(w, r, e, es), rest))
    decreases es, 0
  {
    hide Setting, Sendable, Convert, WriteAny, ReadAny, TypeOf;
    if es == [] {
      assert WriteElems(w, e, es).value + rest == rest;
      assert done + ConvertAll(w, r, e, es) == done;
    } else {
      hide WriteElems, ReadElems;
      ElemsStep(w, e, es);
      var a, b := WriteAny(w, e, es[0]).value, WriteElems(w, e, es[1..]).value;
      var c := Convert(w, r, e, es[0]);
      ReadsAny(w, r, e, e', es[0], b + rest);
      ReadsElems(w, r, e, e', es[1..], done + [c], rest);
      Assoc(a, b, rest);
      ElemsRead(r, e', |es|, done, a + (b + rest), c, b + rest);
      assert ConvertAll(w, r, e, es) == [c] + ConvertAll(w, r, e, es[1..]);
      assert done + [c] + ConvertAll(w, r, e, es[1..]) == done + ConvertAll(w, r, e, es);
    }
  }

  lemma HashRead(r: Schema, k: WireType, e: WireType, ri: Info, n: nat, ts: seq<Token>)
    requires ri.MapOf? && ts != [] && ts[0] == MapHead(k, e, n)
    ensures ReadAny(r, TMap, ri, ts) == ReadPairs(r, k, e, ri.key, ri.elem, n, [], ts[1..])
  {
    hide ReadPairs;
  }

  lemma HashFits(w: Schema, r: Schema, k: Info, e: Info, ri: Info, v: Value)
    requires v.VHash?
    ensures Fits(w, r, MapOf(k, e), ri, v)
       <==> ri.MapOf? && forall i :: 0 <= i < |v.ps| ==> Fits(w, r, k, ri.key, v.ps[i].0) && Fits(w, r, e, ri.elem, v.ps[i].1)
    ensures Convert(w, r, MapOf(k, e), v) == VHash(ConvertPairs(w, r, k, e, v.ps))
  {
  }

  lemma {:induction false} ReadsHash(w: Schema, r: Schema, k: Info, e: Info, ri: Info, v: Value, rest: seq<Token>)
    requires Setting(w, r) && Sendable(w, r, MapOf(k, e), ri, v)
    ensures ReadAny(r, TMap, ri, WriteAny(w, MapOf(k, e), v).value + rest) == Ok((Convert(w, r, MapOf(k, e), v), rest))
    decreases v, 1
  {
    hide Setting, Sent, SameKey, PutPair, ReadAny, WriteAny, WritePairs, ReadPairs, Convert, Apart, Fits;
    HashSent(w, k, e, v);
    HashFits(w, r, k, e, ri, v);
    var b := WritePairs(w, k, e, v.ps).value;
    var ts := WriteAny(w, MapOf(k, e), v).value + rest;
    assert ts[1..] == b + rest;
    KeysApart(w, r, k, ri.key, e, v.ps);
    assert [] + ConvertPairs(w, r, k, e, v.ps) == ConvertPairs(w, r, k, e, v.ps);
    ReadsPairs(w, r, k, e, ri.key, ri.elem, v.ps, [], rest);
    HashRead(r, TypeOf(k), TypeOf(e), ri, |v.ps|, ts);
  }

  lemma PairsRead(r: Schema, kt: WireType, et: WireType, k: Info, e: Info, n: nat, done: seq<(Value, Value)>, ts: seq<Token>, c: (Value, Value), mid: seq<Token>, rest: seq<Token>)
    requires n > 0 && ReadAny(r, kt, k, ts) == Ok((c.0, mid)) && ReadAny(r, et, e, mid) == Ok((c.1, rest))
    ensures ReadPairs(r, kt, et, k, e, n, done, ts) == ReadPairs(r, kt, et, k, e, n - 1, PutPair(r, done, c.0, c.1), rest)
  {
    hide ReadAny, PutPair;
  }

  lemma ConvertPairsStep(w: Schema, r: Schema, k: Info, e: Info, ps: seq<(Value, Value)>, done: seq<(Value, Value)>)
    requires ps != []
    ensures var c, more := (Convert(w, r, k, ps[0].0), Convert(w, r, e, ps[0].1)), ConvertPairs(w, r, k, e, ps[1..]);
            && ConvertPairs(w, r, k, e, ps) == [c] + more
            && done + [c] + more == done + ([c] + more) == done + ConvertPairs(w, r, k, e, ps)
  {
    hide Convert;
    var c, more := (Convert(w, r, k, ps[0].0), Convert(w, r, e, ps[0].1)), ConvertPairs(w, r, k, e, ps[1..]);
    assert ConvertPairs(w, r, k, e, ps) == [c] + more;
  }

  lemma PairTokens(w: Schema, k: Info, e: Info, ps: seq<(Value, Value)>)
    requires ps != [] && WritePairs(w, k, e, ps).Ok?
    ensures WritePair(w, k, e, ps[0]).Ok? && WritePairs(w, k, e, ps[1..]).Ok?
    ensures WritePairs(w, k, e, ps).value == WritePair(w, k, e, ps[0]).value + WritePairs(w, k, e, ps[1..]).value
  {
    hide WritePair;
  }

  lemma {:induction false} ReadsPairs(w: Schema, r: Schema, k: Info, e: Info, k': Info, e': Info, ps: seq<(Value, Value)>, done: seq<(Value, Value)>, rest: seq<Token>)
    requires Setting(w, r) && WritePairs(w, k, e, ps).Ok? && Apart(r, Keys(done + ConvertPairs(w, r, k, e, ps)))
    requires forall i :: 0 <= i < |ps| ==> Sendable(w, r, k, k', ps[i].0) && Sendable(w, r, e, e', ps[i].1)
    ensures ReadPairs(r, TypeOf(k), TypeOf(e), k', e', |ps|, done, WritePairs(w, k, e, ps).value + rest)
         == Ok((VHash(done + ConvertPairs(w, r, k, e, ps)), rest))
    decreases ps, 0
  {
    hide Setting, Sendable, Convert, WriteAny, WritePair, ReadAny, SameKey, PutPair, Apart, TypeOf;
    if ps == [] {
      assert WritePairs(w, k, e, ps).value + rest == rest;
      assert done + ConvertPairs(w, r, k, e, ps) == done;
    } else {
      hide ReadPairs, WritePairs, ConvertPairs, Keys;
      PairTokens(w, k, e, ps);
      var b := WritePairs(w, k, e, ps[1..]).value;
      var c := (Convert(w, r, k, ps[0].0), Convert(w, r, e, ps[0].1));
      var more := ConvertPairs(w, r, k, e, ps[1..]);
      ConvertPairsStep(w, r, k, e, ps, done);
      PutNew(r, done, c, more);
      ReadsPair(w, r, k, e, k', e', ps[0], b + rest);
      var ts := WritePair(w, k, e, ps[0]).value + (b + rest);
      PairsRead(r, TypeOf(k), TypeOf(e), k', e', |ps|, done, ts, c, ReadAny(r, TypeOf(k), k', ts).value.1, b + rest);
      ReadsPairs(w, r, k, e, k', e', ps[1..], done + [c], rest);
      Assoc(WritePair(w, k, e, ps[0]).value, b, rest);
    }
  }

  lemma {:induction false} ReadsPair(w: Schema, r: Schema, k: Info, e: Info, k': Info, e': Info, p: (Value, Value), rest: seq<Token>)
    requires Setting(w, r) && Sendable(w, r, k, k', p.0) && Sendable(w, r, e, e', p.1)
    ensures WritePair(w, k, e, p).Ok?
    ensures var x := ReadAny(r, TypeOf(k), k', WritePair(w, k, e, p).value + rest);
            x.Ok? && x.value.0 == Convert(w, r, k, p.0) && ReadAny(r, TypeOf(e), e', x.value.1) == Ok((Convert(w, r, e, p.1), rest))
    decreases p, 3
  {
    hide Setting, Convert, Proper, ReadAny, WriteAny, Fits, KnownInfo;
    var x, y := WriteAny(w, k, p.0).value, WriteAny(w, e, p.1).value;
    ReadsAny(w, r, k, k', p.0, y + rest);
    ReadsAny(w, r, e, e', p.1, rest);
    Assoc(x, y, rest);
  }

  // ----- objects

  lemma ObjRead(r: Schema, k: string, ts: seq<Token>)
    requires k in r
    ensures ReadAny(r, TStruct, Obj(k), ts) == if r[k].isUnion then ReadUnion(r, k, ts) else ReadFields(r, k, New(r, k).fields, ts)
  {
    hide ReadUnion, ReadFields, Defaults;
  }

  lemma ObjFits(w: Schema, r: Schema, k: string, ri: Info, v: Value)
    requires v.VObj? && v.klass == k && k in w
    ensures Fits(w, r, Obj(k), ri, v) <==>
              && ri == Obj(k) && k in r
              && (r[k].isUnion ==> AtMostOne(v.fields) && forall fid :: fid in v.fields ==> Has(r[k].fields, fid))
              && forall fid :: fid in v.fields && Shared(w, r, k, fid) ==> FieldFits(w, r, k, fid, v.fields[fid])
  {
    hide FieldAt, FieldFits;
  }

  lemma {:induction false} ReadsObj(w: Schema, r: Schema, k: string, ri: Info, v: Value, rest: seq<Token>)
    requires Setting(w, r) && Sendable(w, r, Obj(k), ri, v)
    ensures ReadAny(r, TStruct, ri, WriteAny(w, Obj(k), v).value + rest) == Ok((Convert(w, r, Obj(k), v), rest))
    decreases v, 1
  {
    hide Setting, Sent, ReadAny, WriteAny, ReadUnion, ReadFields, WriteFields, Convert, New, Fits, FieldFits, Shared, Has;
    ObjSent(w, k, v);
    ObjFits(w, r, k, ri, v);
    ObjRead(r, k, WriteAny(w, Obj(k), v).value + rest);
    var fs := w[k].fields;
    Assoc(WriteFields(w, fs, v).value, [Stop], rest);
    if r[k].isUnion {
      ReadsUnion(w, r, k, v, rest);
    } else {
      assert PartOf(fs, fs) by {
        assert fs == fs[0..];
      }
      ReadsFields(w, r, k, fs, New(r, k).fields, v, rest);
      AllConverted(w, r, k, v);
    }
  }

  /** The fields of fs that are set and known to the reader. */
  function ConvertFields(w: Schema, r: Schema, k: string, fs: seq<FieldDef>, v: Value): map<int, Value>
    requires v.VObj? && k in w && k in r
  {
    map fid | fid in v.fields && Has(fs, fid) && Shared(w, r, k, fid) :: Convert(w, r, FieldAt(w[k].fields, fid).value.info, v.fields[fid])
  }

  lemma AllConverted(w: Schema, r: Schema, k: string, v: Value)
    requires v.VObj? && v.klass == k && k in w && k in r
    ensures Convert(w, r, Obj(k), v) == VObj(k, New(r, k).fields + ConvertFields(w, r, k, w[k].fields, v))
  {
    hide FieldAt;
    assert ConvertFields(w, r, k, w[k].fields, v)
        == map fid | fid in v.fields && Shared(w, r, k, fid) :: Convert(w, r, FieldAt(w[k].fields, fid).value.info, v.fields[fid]);
  }

  lemma {:induction false} UniqueField(fs: seq<FieldDef>, i: nat)
    requires Ascending(fs) && i < |fs|
    ensures FieldAt(fs, fs[i].fid) == Some(fs[i])
  {
    if i > 0 {
      UniqueField(fs[1..], i - 1);
    }
  }

  lemma KnownField(s: Schema, k: string, f: FieldDef)
    requires GoodSchema(s) && k in s && f in s[k].fields
    ensures KnownInfo(s, f.info) && FieldAt(s[k].fields, f.fid) == Some(f)
  {
    hide KnownInfo;
    var i :| 0 <= i < |s[k].fields| && s[k].fields[i] == f;
    UniqueField(s[k].fields, i);
  }

  lemma SchemaAscending(s: Schema, k: string)
    requires GoodSchema(s) && k in s
    ensures Ascending(s[k].fields)
  {
    hide KnownInfo;
  }

  lemma HasStep(fs: seq<FieldDef>, fid: int)
    requires fs != []
    ensures Has(fs, fid) <==> fs[0].fid == fid || Has(fs[1..], fid)
  {
  }

  lemma NoEarlier(fs: seq<FieldDef>)
    requires Ascending(fs) && fs != []
    ensures !Has(fs[1..], fs[0].fid)
  {
    forall f | f in fs[1..]
      ensures f.fid != fs[0].fid
    {
      var i :| 0 <= i < |fs[1..]| && fs[1..][i] == f;
      assert fs[0].fid < fs[i + 1].fid;
    }
  }

  lemma NotNil(w: Schema, r: Schema, info: Info, v: Value)
    requires !v.VNil?
    ensures !Convert(w, r, info, v).VNil?
  {
  }

  ghost predicate PartOf(fs: seq<FieldDef>, all: seq<FieldDef>) {
    exists n: nat :: n <= |all| && fs == all[n..]
  }

  lemma PartStep(all: seq<FieldDef>, fs: seq<FieldDef>)
    requires PartOf(fs, all) && fs != []
    ensures PartOf(fs[1..], all) && fs[0] in all
  {
    var n: nat :| n <= |all| && fs == all[n..];
    assert fs[1..] == all[n + 1..];
  }

  lemma PartAscending(all: seq<FieldDef>, fs: seq<FieldDef>)
    requires Ascending(all) && PartOf(fs, all)
    ensures Ascending(fs)
  {
  }

  lemma SkipStep(r: Schema, k: string, fields: map<int, Value>, ts: seq<Token>, rest: seq<Token>)
    requires k in r && AtField(ts) && FieldAt(r[k].fields, ts[0].fid).None? && Skip(ts[0].ftype, ts[1..]) == Ok(rest)
    ensures ReadFields(r, k, fields, ts) == ReadFields(r, k, fields, rest)
  {
    hide Skip, FieldAt, ReadAny;
  }

  /** One known field; a nil leaves the field as it was. */
  lemma FieldStep(r: Schema, k: string, fields: map<int, Value>, ts: seq<Token>, c: Value, rest: seq<Token>)
    requires k in r && AtField(ts) && FieldAt(r[k].fields, ts[0].fid).Some?
    requires var g := FieldAt(r[k].fields, ts[0].fid).value;
             TypeOf(g.info) == ts[0].ftype && ReadAny(r, ts[0].ftype, g.info, ts[1..]) == Ok((c, rest))
    ensures ReadFields(r, k, fields, ts) == ReadFields(r, k, if c.VNil? then fields else fields[ts[0].fid := c], rest)
  {
    hide Skip, FieldAt, ReadAny;
  }

  lemma EndStep(r: Schema, k: string, fields: map<int, Value>, rest: seq<Token>)
    requires k in r
    ensures ReadFields(r, k, fields, [Stop] + rest) == Ok((VObj(k, fields), rest))
  {
    assert ([Stop] + rest)[1..] == rest;
  }

  lemma FieldTokens(w: Schema, fs: seq<FieldDef>, v: Value, end: seq<Token>)
    requires v.VObj? && fs != [] && WriteFields(w, fs, v).Ok? && IsSet(v.fields, fs[0].fid)
    ensures WriteAny(w, fs[0].info, v.fields[fs[0].fid]).Ok? && WriteFields(w, fs[1..], v).Ok?
    ensures var x, b := WriteAny(w, fs[0].info, v.fields[fs[0].fid]).value, WriteFields(w, fs[1..], v).value;
            var ts := WriteFields(w, fs, v).value + end;
            ts != [] && ts[0] == FieldHead(TypeOf(fs[0].info), fs[0].fid) && ts[1..] == x + (b + end)
  {
    hide WriteAny;
    var x, b := WriteAny(w, fs[0].info, v.fields[fs[0].fid]).value, WriteFields(w, fs[1..], v).value;
    var head := [FieldHead(TypeOf(fs[0].info), fs[0].fid)];
    assert WriteFields(w, fs, v).value == head + x + b;
    assert head + x + b + end == head + (x + (b + end));
  }

  lemma UnsetTokens(w: Schema, fs: seq<FieldDef>, v: Value)
    requires v.VObj? && fs != [] && !IsSet(v.fields, fs[0].fid)
    ensures WriteFields(w, fs, v) == WriteFields(w, fs[1..], v)
  {
  }

  lemma NoFields(w: Schema, v: Value, end: seq<Token>)
    requires v.VObj?
    ensures WriteFields(w, [], v) == Ok([]) && [] + end == end
  {
  }

  /** Merging in a binding that is there already, or that has just been made. */
  lemma MergeStep(fields: map<int, Value>, more: map<int, Value>, fid: int, c: Value)
    requires fid !in more
    ensures fields[fid := c] + more == fields + more[fid := c]
    ensures fid in fields && fields[fid] == c ==> fields + more == fields + more[fid := c]
  {
  }

  lemma NoneHere(w: Schema, r: Schema, k: string, v: Value)
    requires v.VObj? && k in w && k in r
    ensures ConvertFields(w, r, k, [], v) == map[]
  {
  }

  /** The fields still to be read hold the defaults of the reader's class, and nothing else. */
  ghost predicate Fresh(r: Schema, k: string, fs: seq<FieldDef>, fields: map<int, Value>)
    requires k in r
  {
    forall f :: f in fs ==> SameAt(fields, New(r, k).fields, f.fid)
  }

  predicate SameAt(a: map<int, Value>, b: map<int, Value>, fid: int) {
    if fid in b then fid in a && a[fid] == b[fid] else fid !in a
  }

  lemma FreshStep(r: Schema, k: string, fs: seq<FieldDef>, fields: map<int, Value>, c: Value)
    requires k in r && fs != [] && Ascending(fs) && Fresh(r, k, fs, fields)
    ensures Fresh(r, k, fs[1..], fields) && Fresh(r, k, fs[1..], fields[fs[0].fid := c])
    ensures SameAt(fields, New(r, k).fields, fs[0].fid)
  {
    hide New;
    forall f | f in fs[1..]
      ensures f.fid != fs[0].fid && f in fs
    {
      var i :| 0 <= i < |fs[1..]| && fs[1..][i] == f;
      assert fs[0].fid < fs[i + 1].fid;
    }
  }

  lemma FreshStart(r: Schema, k: string, fs: seq<FieldDef>)
    requires k in r
    ensures Fresh(r, k, fs, New(r, k).fields)
  {
  }

  /** A list or set of other elements is read as nil, and passed over. */
  lemma DropsList(w: Schema, r: Schema, wi: Info, ri: Info, v: Value, rest: seq<Token>)
    requires GoodSchema(w) && Sent(w, wi, v) && Dropped(wi, ri)
    ensures ReadAny(r, TypeOf(wi), ri, WriteAny(w, wi, v).value + rest) == Ok((VNil, rest))
  {
    hide SkipElems, ReadElems, WriteElems, Proper;
    var ts := WriteAny(w, wi, v).value + rest;
    SkipsElems(w, wi.elem, v.es, rest);
    assert ts[1..] == WriteElems(w, wi.elem, v.es).value + rest;
  }

  /** The writer's first field, and its share of what the reader gets. */
  lemma FieldsStep(w: Schema, r: Schema, k: string, fs: seq<FieldDef>, v: Value)
    requires GoodSchema(w) && v.VObj? && k in w && k in r && fs != [] && PartOf(fs, w[k].fields)
    ensures var f := fs[0];
            var c, d := ConvertFields(w, r, k, fs, v), ConvertFields(w, r, k, fs[1..], v);
            && PartOf(fs[1..], w[k].fields) && Ascending(fs) && KnownInfo(w, f.info)
            && f.fid !in d && FieldAt(w[k].fields, f.fid) == Some(f)
            && c == if f.fid in v.fields && Has(r[k].fields, f.fid) then d[f.fid := Convert(w, r, f.info, v.fields[f.fid])] else d
  {
    hide Convert, FieldAt, GoodSchema, ConvertFields, KnownInfo, PartOf;
    PartStep(w[k].fields, fs);
    KnownField(w, k, fs[0]);
    SchemaAscending(w, k);
    PartAscending(w[k].fields, fs);
    NoEarlier(fs);
    ConvertedStep(w, r, k, fs, v);
  }

  lemma ConvertedStep(w: Schema, r: Schema, k: string, fs: seq<FieldDef>, v: Value)
    requires v.VObj? && k in w && k in r && fs != [] && FieldAt(w[k].fields, fs[0].fid) == Some(fs[0]) && !Has(fs[1..], fs[0].fid)
    ensures var f := fs[0];
            var c, d := ConvertFields(w, r, k, fs, v), ConvertFields(w, r, k, fs[1..], v);
            f.fid !in d && c == if f.fid in v.fields && Has(r[k].fields, f.fid) then d[f.fid := Convert(w, r, f.info, v.fields[f.fid])] else d
  {
    hide Convert, FieldAt;
    forall fid
      ensures Has(fs, fid) <==> fs[0].fid == fid || Has(fs[1..], fid)
    {
      HasStep(fs, fid);
    }
  }

  /** Every field that is set fits. */
  ghost predicate FieldsReady(w: Schema, r: Schema, k: string, v: Value)
    requires v.VObj? && k in w && k in r
  {
    && Sent(w, Obj(k), v) && v.klass == k
    && forall fid :: fid in v.fields ==> !v.fields[fid].VNil? && (Shared(w, r, k, fid) ==> FieldFits(w, r, k, fid, v.fields[fid]))
  }

  /** The reader's loop over the writer's fields. */
  lemma {:induction false} ReadsFields(w: Schema, r: Schema, k: string, fs: seq<FieldDef>, fields: map<int, Value>, v: Value, rest: seq<Token>)
    requires Setting(w, r) && v.VObj? && k in w && k in r && !r[k].isUnion && FieldsReady(w, r, k, v)
    requires WriteFields(w, fs, v).Ok? && PartOf(fs, w[k].fields) && Fresh(r, k, fs, fields)
    ensures ReadFields(r, k, fields, WriteFields(w, fs, v).value + ([Stop] + rest))
         == Ok((VObj(k, fields + ConvertFields(w, r, k, fs, v)), rest))
    decreases v, 0, |fs|
  {
    hide Convert, WriteAny, ReadAny, Skip, FieldAt, ReadFields, FieldsReady, GoodSchema, ConvertFields, WriteFields, PartOf, Fresh, New, KnownInfo;
    var end := [Stop] + rest;
    if fs == [] {
      NoFields(w, v, end);
      NoneHere(w, r, k, v);
      EndStep(r, k, fields, rest);
      assert fields + map[] == fields;
    } else {
      var f := fs[0];
      FieldsStep(w, r, k, fs, v);
      ReadyStep(w, r, k, f, v);
      if !IsSet(v.fields, f.fid) {
        UnsetTokens(w, fs, v);
        FreshStep(r, k, fs, fields, VNil);
        ReadsFields(w, r, k, fs[1..], fields, v, rest);
      } else {
        FieldTokens(w, fs, v, end);
        var b := WriteFields(w, fs[1..], v).value;
        var ts := WriteFields(w, fs, v).value + end;
        TypeNotStop(w, f.info);
        if FieldAt(r[k].fields, f.fid).None? {
          SkipsAny(w, f.info, v.fields[f.fid], b + end);
          SkipStep(r, k, fields, ts, b + end);
          FreshStep(r, k, fs, fields, VNil);
          ReadsFields(w, r, k, fs[1..], fields, v, rest);
        } else {
          var u := Convert(w, r, f.info, v.fields[f.fid]);
          var c := FieldRead(w, r, k, fs, fields, v, b + end);
          FieldStep(r, k, fields, ts, c, b + end);
          FreshStep(r, k, fs, fields, c);
          ReadsFields(w, r, k, fs[1..], if c.VNil? then fields else fields[f.fid := c], v, rest);
          MergeStep(fields, ConvertFields(w, r, k, fs[1..], v), f.fid, u);
        }
      }
    }
  }

  lemma ReadyStep(w: Schema, r: Schema, k: string, f: FieldDef, v: Value)
    requires GoodSchema(w) && v.VObj? && k in w && k in r && FieldsReady(w, r, k, v) && FieldAt(w[k].fields, f.fid) == Some(f)
    ensures f.fid in v.fields ==> IsSet(v.fields, f.fid) && Sent(w, f.info, v.fields[f.fid])
    ensures f.fid in v.fields && Has(r[k].fields, f.fid) ==> FieldFits(w, r, k, f.fid, v.fields[f.fid])
  {
    hide Sent, FieldFits, FieldAt;
    if f.fid in v.fields {
      FieldSent(w, k, v, f.fid);
    }
  }

  /** What the reader gets for a shared field that fits: its value, or nil where the default replaces it. */
  lemma {:induction false} FieldRead(w: Schema, r: Schema, k: string, fs: seq<FieldDef>, fields: map<int, Value>, v: Value, rest: seq<Token>) returns (c: Value)
    requires Setting(w, r) && v.VObj? && k in w && k in r && !r[k].isUnion && fs != [] && fs[0].fid in v.fields && Fresh(r, k, fs, fields)
    requires FieldAt(w[k].fields, fs[0].fid) == Some(fs[0]) && FieldAt(r[k].fields, fs[0].fid).Some?
    requires Sent(w, fs[0].info, v.fields[fs[0].fid]) && FieldFits(w, r, k, fs[0].fid, v.fields[fs[0].fid]) && !v.fields[fs[0].fid].VNil?
    ensures var f := fs[0];
            var ri := FieldAt(r[k].fields, f.fid).value.info;
            && TypeOf(ri) == TypeOf(f.info)
            && ReadAny(r, TypeOf(f.info), ri, WriteAny(w, f.info, v.fields[f.fid]).value + rest) == Ok((c, rest))
    ensures var f := fs[0];
            var u := Convert(w, r, f.info, v.fields[f.fid]);
            if c.VNil? then f.fid in fields && fields[f.fid] == u else c == u
    decreases v.fields[fs[0].fid], 3
  {
    hide Convert, WriteAny, ReadAny, Sent, FieldAt, New, Setting, Dropped;
    var f := fs[0];
    var ri := FieldAt(r[k].fields, f.fid).value.info;
    if Fits(w, r, f.info, ri, v.fields[f.fid]) {
      ReadsAny(w, r, f.info, ri, v.fields[f.fid], rest);
      NotNil(w, r, f.info, v.fields[f.fid]);
      c := Convert(w, r, f.info, v.fields[f.fid]);
    } else {
      SettingGood(w, r);
      DropsList(w, r, f.info, ri, v.fields[f.fid], rest);
      c := VNil;
    }
  }

  lemma SettingGood(w: Schema, r: Schema)
    requires Setting(w, r)
    ensures GoodSchema(w) && GoodSchema(r)
  {
    hide GoodSchema;
  }

  // ----- unions

  /** An object with at most one field set writes that field, or nothing. */
  lemma {:induction false} UnionTokens(w: Schema, fs: seq<FieldDef>, v: Value)
    requires v.VObj? && Ascending(fs) && WriteFields(w, fs, v).Ok? && AtMostOne(v.fields)
    requires forall fid :: fid in v.fields ==> !v.fields[fid].VNil?
    ensures if exists fid :: fid in v.fields && Has(fs, fid) then
              forall fid :: fid in v.fields ==>
                Has(fs, fid) && var f := FieldAt(fs, fid).value;
                WriteAny(w, f.info, v.fields[fid]).Ok? && WriteFields(w, fs, v).value == [FieldHead(TypeOf(f.info), fid)] + WriteAny(w, f.info, v.fields[fid]).value
            else WriteFields(w, fs, v).value == []
    decreases |fs|
  {
    hide WriteAny;
    if fs != [] {
      UnionTokens(w, fs[1..], v);
      NoEarlier(fs);
    }
  }

  /** A union's one field, and its stop marker. */
  lemma UnionStep(r: Schema, k: string, ts: seq<Token>, c: Value, rest: seq<Token>)
    requires k in r && AtField(ts) && FieldAt(r[k].fields, ts[0].fid).Some? && !c.VNil?
    requires ReadAny(r, ts[0].ftype, FieldAt(r[k].fields, ts[0].fid).value.info, ts[1..]) == Ok((c, [Stop] + rest))
    ensures ReadUnion(r, k, ts) == Ok((VObj(k, map[ts[0].fid := c]), rest))
  {
    hide Skip, FieldAt, ReadAny;
    assert ([Stop] + rest)[1..] == rest;
  }

  lemma {:induction false} ReadsUnion(w: Schema, r: Schema, k: string, v: Value, rest: seq<Token>)
    requires Setting(w, r) && Sendable(w, r, Obj(k), Obj(k), v) && v.VObj? && v.klass == k && k in w && k in r && r[k].isUnion && WriteFields(w, w[k].fields, v).Ok?
    ensures ReadUnion(r, k, WriteFields(w, w[k].fields, v).value + ([Stop] + rest)) == Ok((Convert(w, r, Obj(k), v), rest))
    decreases v, 0
  {
    hide WriteAny, ReadAny, WriteFields, FieldAt, Convert, Sent, KnownInfo, Fits, Shared, ReadUnion;
    var fs := w[k].fields;
    var end := [Stop] + rest;
    ObjSent(w, k, v);
    ObjFits(w, r, k, Obj(k), v);
    SchemaAscending(w, k);
    UnionTokens(w, fs, v);
    var ts := WriteFields(w, fs, v).value + end;
    if fid :| fid in v.fields {
      var f := FieldAt(fs, fid).value;
      var ri := FieldAt(r[k].fields, fid).value.info;
      var x := WriteAny(w, f.info, v.fields[fid]).value;
      var c := Convert(w, r, f.info, v.fields[fid]);
      assert ts[1..] == x + end;
      IsShared(w, r, k, fid);
      FieldSent(w, k, v, fid);
      KnownField(w, k, f);
      TypeNotStop(w, f.info);
      ReadsAny(w, r, f.info, ri, v.fields[fid], end);
      NotNil(w, r, f.info, v.fields[fid]);
      UnionConverted(w, r, k, v, fid);
      UnionStep(r, k, ts, c, rest);
    } else {
      assert ts == end;
      EmptyUnion(w, r, k, v, rest);
    }
  }

  lemma IsShared(w: Schema, r: Schema, k: string, fid: int)
    requires k in w && k in r && Has(w[k].fields, fid) && Has(r[k].fields, fid)
    ensures Shared(w, r, k, fid)
  {
  }

  lemma EmptyUnion(w: Schema, r: Schema, k: string, v: Value, rest: seq<Token>)
    requires v.VObj? && v.klass == k && k in w && k in r && r[k].isUnion && forall fid :: fid !in v.fields
    ensures ReadUnion(r, k, [Stop] + rest) == Ok((Convert(w, r, Obj(k), v), rest))
  {
    assert ([Stop] + rest)[1..] == rest;
    assert Convert(w, r, Obj(k), v).fields == map[];
  }

  lemma UnionConverted(w: Schema, r: Schema, k: string, v: Value, fid: int)
    requires v.VObj? && v.klass == k && k in w && k in r && r[k].isUnion && Shared(w, r, k, fid) && fid in v.fields && AtMostOne(v.fields)
    ensures Convert(w, r, Obj(k), v) == VObj(k, map[fid := Convert(w, r, FieldAt(w[k].fields, fid).value.info, v.fields[fid])])
  {
    hide FieldAt;
    var c := Convert(w, r, Obj(k), v);
    assert c.fields.Keys == {fid};
  }
}
