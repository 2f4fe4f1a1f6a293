/** An audit without failures means that readers and writers on either side of the change understand each other. */
module AuditSoundness {
  import opened Wrappers
  import opened Wire
  import opened Exactness
  import opened Interop
  import opened RoundTrips
  import opened Idl
  import opened Audits

  // ----- the classes generated from structs

  function FieldOf(m: Member): FieldDef {
    FieldDef(m.key, InfoOf(m.ftype), m.req == Optional, m.value)
  }

  function KlassOf(d: StructDecl): Klass {
    Klass(d.isUnion, seq(|d.fields|, i requires 0 <= i < |d.fields| => FieldOf(d.fields[i])))
  }

  function SchemaOf(ds: seq<StructDecl>): Schema {
    map name | name in (set d | d in ds :: d.name) && Latest(ds, name).Some? :: KlassOf(Latest(ds, name).value)
  }

  lemma InSchema(ds: seq<StructDecl>, k: string)
    ensures k in SchemaOf(ds) <==> Latest(ds, k).Some?
    ensures k in SchemaOf(ds) ==> SchemaOf(ds)[k] == KlassOf(Latest(ds, k).value)
  {
    hide Latest, KlassOf;
    if Latest(ds, k).Some? {
      assert Latest(ds, k).value in ds;
    }
  }

  // ----- names that keep their meaning

  /** Every name in a type means what the table says. */
  ghost predicate Denotes(m: map<string, Info>, t: IdlType) {
    match t
    case ListType(e) => Denotes(m, e)
    case SetType(e) => Denotes(m, e)
    case MapType(k, v) => Denotes(m, k) && Denotes(m, v)
    case _ => NameOf(t) != "" && NameOf(t) in m && m[NameOf(t)] == InfoOf(t)
  }

  /** Then types that the audit finds equal are read and written alike. */
  lemma {:induction false} SameInfo(m: map<string, Info>, n: IdlType, o: IdlType)
    requires Denotes(m, n) && Denotes(m, o) && CompareType(n, o)
    ensures InfoOf(n) == InfoOf(o)
  {
    if n.ListType? && o.ListType? {
      SameInfo(m, n.elem, o.elem);
    } else if n.SetType? && o.SetType? {
      SameInfo(m, n.elem, o.elem);
    } else if n.MapType? && o.MapType? {
      SameInfo(m, n.key, o.key);
      SameInfo(m, n.val, o.val);
    }
  }

  datatype Kind = EnumKind | StructKind

  /** Without typedefs, and with names of one kind that are no base type's, there is such a table. */
  ghost predicate Plain(kinds: map<string, Kind>, t: IdlType) {
    match t
    case BaseType(_) => true
    case EnumType(n) => n in kinds && kinds[n] == EnumKind && n !in BASE_NAMES && n != ""
    case StructType(n) => n in kinds && kinds[n] == StructKind && n !in BASE_NAMES && n != ""
    case Typedef(_, _) => false
    case ListType(e) => Plain(kinds, e)
    case SetType(e) => Plain(kinds, e)
    case MapType(k, v) => Plain(kinds, k) && Plain(kinds, v)
  }

  const BASE_NAMES := {"void", "string", "bool", "byte", "i16", "i32", "i64", "double"}

  function Meaning(kinds: map<string, Kind>): map<string, Info> {
    (map n | n in kinds :: if kinds[n] == EnumKind then Prim(TI32) else Obj(n))
    + map["void" := Prim(TStop), "string" := Prim(TString), "bool" := Prim(TBool), "byte" := Prim(TByte),
          "i16" := Prim(TI16), "i32" := Prim(TI32), "i64" := Prim(TI64), "double" := Prim(TDouble)]
  }

  lemma {:induction false} PlainDenotes(kinds: map<string, Kind>, t: IdlType)
    requires Plain(kinds, t)
    ensures Denotes(Meaning(kinds), t)
  {
    match t
    case ListType(e) => PlainDenotes(kinds, e);
    case SetType(e) => PlainDenotes(kinds, e);
    case MapType(k, v) =>
      PlainDenotes(kinds, k);
      PlainDenotes(kinds, v);
    case BaseType(b) => BaseMeaning(kinds, b);
    case EnumType(n) => assert Meaning(kinds)[n] == Prim(TI32);
    case StructType(n) => assert Meaning(kinds)[n] == Obj(n);
  }

  lemma BaseMeaning(kinds: map<string, Kind>, b: Base)
    ensures BaseName(b) != "" && BaseName(b) in Meaning(kinds) && Meaning(kinds)[BaseName(b)] == Prim(BaseWire(b))
  {
    var base := map["void" := Prim(TStop), "string" := Prim(TString), "bool" := Prim(TBool), "byte" := Prim(TByte),
                    "i16" := Prim(TI16), "i32" := Prim(TI32), "i64" := Prim(TI64), "double" := Prim(TDouble)];
    match b
    case VoidBase => assert "void" in base && base["void"] == Prim(TStop);
    case StringBase | BinaryBase => assert "string" in base && base["string"] == Prim(TString);
    case BoolBase => assert "bool" in base && base["bool"] == Prim(TBool);
    case ByteBase => assert "byte" in base && base["byte"] == Prim(TByte);
    case I16Base => assert "i16" in base && base["i16"] == Prim(TI16);
    case I32Base => assert "i32" in base && base["i32"] == Prim(TI32);
    case I64Base => assert "i64" in base && base["i64"] == Prim(TI64);
    case DoubleBase => assert "double" in base && base["double"] == Prim(TDouble);
  }

  // ----- what an audit without failures leaves equal

  /** Fields in order of their keys, and no struct mentioned that is not in the file. */
  ghost predicate GoodFile(ds: seq<StructDecl>) {
    forall d :: d in ds ==> Sorted(d.fields) && forall f :: f in d.fields ==> KnownInfo(SchemaOf(ds), InfoOf(f.ftype))
  }

  /** All types mean what the table says. */
  ghost predicate Meant(m: map<string, Info>, ds: seq<StructDecl>) {
    forall d, f :: d in ds && f in d.fields ==> Denotes(m, f.ftype)
  }

  ghost predicate SameUnions(news: seq<StructDecl>, olds: seq<StructDecl>) {
    forall k :: Latest(news, k).Some? && Latest(olds, k).Some? ==> Latest(news, k).value.isUnion == Latest(olds, k).value.isUnion
  }

  ghost predicate Accepted(news: seq<StructDecl>, olds: seq<StructDecl>) {
    GoodFile(news) && GoodFile(olds) && SameUnions(news, olds) && !AuditFails(news, olds)
  }

  /** Accepted, and no name has changed its meaning. */
  ghost predicate Audited(m: map<string, Info>, news: seq<StructDecl>, olds: seq<StructDecl>) {
    Accepted(news, olds) && Meant(m, news) && Meant(m, olds)
  }

  /** The reader has every class and every field of the writer. */
  ghost predicate Covers(w: Schema, r: Schema) {
    forall k :: k in w ==> k in r && forall fid :: Has(w[k].fields, fid) ==> Has(r[k].fields, fid)
  }

  lemma FileGood(ds: seq<StructDecl>)
    requires GoodFile(ds)
    ensures GoodSchema(SchemaOf(ds))
  {
    hide Latest, KnownInfo, SchemaOf;
    var s := SchemaOf(ds);
    forall k | k in s
      ensures Ascending(s[k].fields) && forall f :: f in s[k].fields ==> KnownInfo(s, f.info)
    {
      InSchema(ds, k);
      var d := Latest(ds, k).value;
      assert d in ds;
      forall i | 0 <= i < |d.fields|
        ensures KnownInfo(s, s[k].fields[i].info)
      {
        assert d.fields[i] in d.fields;
      }
    }
  }

  lemma HasIff(d: StructDecl, fid: int)
    ensures Has(KlassOf(d).fields, fid) <==> HasKey(d.fields, fid)
  {
    hide FieldAt;
    var fs := KlassOf(d).fields;
    if Has(fs, fid) {
      var f := FieldAt(fs, fid).value;
      var i :| 0 <= i < |fs| && fs[i] == f;
      assert d.fields[i] in d.fields && d.fields[i].key == fid;
    }
    if HasKey(d.fields, fid) {
      var m :| m in d.fields && m.key == fid;
      var i :| 0 <= i < |d.fields| && d.fields[i] == m;
      assert fs[i] in fs && fs[i].fid == fid;
    }
  }

  /** Two forms of one struct that the audit accepts: no field was taken away. */
  lemma PairCovers(n: StructDecl, o: StructDecl)
    requires !StructFails(n.fields, o.fields)
    ensures forall fid :: Has(KlassOf(o).fields, fid) ==> Has(KlassOf(n).fields, fid)
  {
    hide HasKey, Has, KlassOf;
    forall fid | Has(KlassOf(o).fields, fid)
      ensures Has(KlassOf(n).fields, fid)
    {
      HasIff(o, fid);
      HasIff(n, fid);
      KeyWitness(o.fields, fid);
    }
  }

  /** Nor did a field change its type, if names kept their meaning. */
  lemma PairSound(m: map<string, Info>, n: StructDecl, o: StructDecl)
    requires !StructFails(n.fields, o.fields)
    requires (forall f :: f in n.fields ==> Denotes(m, f.ftype)) && forall f :: f in o.fields ==> Denotes(m, f.ftype)
    ensures SameTypes(KlassOf(o).fields, KlassOf(n).fields)
  {
    hide Denotes, CompareType, InfoOf, HasKey;
    var fs, gs := KlassOf(o).fields, KlassOf(n).fields;
    forall f, g | f in fs && g in gs && f.fid == g.fid
      ensures f.info == g.info
    {
      var i :| 0 <= i < |fs| && fs[i] == f;
      var j :| 0 <= j < |gs| && gs[j] == g;
      var a, b := o.fields[i], n.fields[j];
      assert a in o.fields && b in n.fields && a.key == b.key;
      assert !FieldFails(b, a);
      SameInfo(m, b.ftype, a.ftype);
    }
  }

  lemma KeyWitness(ms: seq<Member>, key: int)
    ensures HasKey(ms, key) <==> exists x :: x in ms && x.key == key
  {
  }

  lemma Paired(news: seq<StructDecl>, olds: seq<StructDecl>, k: string) returns (n: StructDecl, o: StructDecl)
    requires Accepted(news, olds) && k in SchemaOf(olds)
    ensures k in SchemaOf(news) && n in news && o in olds && !StructFails(n.fields, o.fields) && n.isUnion == o.isUnion
    ensures SchemaOf(olds)[k] == KlassOf(o) && SchemaOf(news)[k] == KlassOf(n)
  {
    hide Latest, KnownInfo, SchemaOf, StructFails, KlassOf, Sorted;
    InSchema(olds, k);
    InSchema(news, k);
    o := Latest(olds, k).value;
    assert o in olds && o.name == k;
    assert !PairFails(news, o);
    n := Latest(news, k).value;
    assert n in news;
  }

  /** An audit without failures: the new classes cover the old ones. */
  lemma AcceptedCovers(news: seq<StructDecl>, olds: seq<StructDecl>)
    requires Accepted(news, olds)
    ensures Setting(SchemaOf(olds), SchemaOf(news)) && Setting(SchemaOf(news), SchemaOf(olds))
    ensures Covers(SchemaOf(olds), SchemaOf(news))
  {
    hide Latest, KnownInfo, SchemaOf, StructFails, KlassOf, Has, GoodFile, SameUnions, AuditFails;
    var w, r := SchemaOf(olds), SchemaOf(news);
    FileGood(olds);
    FileGood(news);
    forall k | k in w
      ensures k in r && w[k].isUnion == r[k].isUnion
      ensures forall fid :: Has(w[k].fields, fid) ==> Has(r[k].fields, fid)
    {
      var n, o := Paired(news, olds, k);
      PairCovers(n, o);
      KlassKind(n);
      KlassKind(o);
    }
  }

  lemma KlassKind(d: StructDecl)
    ensures KlassOf(d).isUnion == d.isUnion
  {
  }

  /** If names kept their meaning, both schemas also give their common fields the same types. */
  lemma AuditSound(m: map<string, Info>, news: seq<StructDecl>, olds: seq<StructDecl>)
    requires Audited(m, news, olds)
    ensures Compatible(SchemaOf(olds), SchemaOf(news)) && Compatible(SchemaOf(news), SchemaOf(olds))
    ensures Setting(SchemaOf(olds), SchemaOf(news)) && Covers(SchemaOf(olds), SchemaOf(news))
  {
    hide Accepted, SchemaOf, StructFails, KlassOf, Denotes, GoodSchema, Covers, SameTypes;
    var w, r := SchemaOf(olds), SchemaOf(news);
    AcceptedCovers(news, olds);
    forall k | k in w && k in r
      ensures SameTypes(w[k].fields, r[k].fields) && SameTypes(r[k].fields, w[k].fields)
    {
      var n, o := Paired(news, olds, k);
      PairSound(m, n, o);
      SameTypesBack(w[k].fields, r[k].fields);
    }
  }

  lemma SameTypesBack(fs: seq<FieldDef>, gs: seq<FieldDef>)
    requires SameTypes(fs, gs)
    ensures SameTypes(gs, fs)
  {
  }

  // ----- values across the change

  lemma {:induction false} KnownInBoth(w: Schema, r: Schema, info: Info)
    requires Covers(w, r) && KnownInfo(w, info)
    ensures KnownInfo(r, info)
  {
    hide Has;
    match info
    case ListOf(e) => KnownInBoth(w, r, e);
    case SetOf(e) => KnownInBoth(w, r, e);
    case MapOf(k, e) =>
      KnownInBoth(w, r, k);
      KnownInBoth(w, r, e);
    case _ =>
  }

  /** A reader that covers the writer knows every field of every union, so it reads those that hold at most one. */
  lemma {:induction false} CoversRead(w: Schema, r: Schema, info: Info, v: Value)
    requires Covers(w, r) && SameKinds(w, r) && Proper(w, info, v)
    ensures UnionsRead(w, r, info, v) <==> UnionsRead(w, w, info, v)
    decreases v, 2
  {
    hide Covers, SameKinds, Proper, UnionsRead;
    match v
    case VList(es) => CoversList(w, r, info, v);
    case VSet(es) => CoversList(w, r, info, v);
    case VHash(ps) => CoversHash(w, r, info, v);
    case VObj(k, fields) => CoversObj(w, r, info, v);
    case _ => CoversAtom(w, r, info, v);
  }

  lemma CoversAtom(w: Schema, r: Schema, info: Info, v: Value)
    requires !v.VList? && !v.VSet? && !v.VHash? && !v.VObj?
    ensures UnionsRead(w, r, info, v) && UnionsRead(w, w, info, v)
  {
  }

  lemma {:induction false} CoversList(w: Schema, r: Schema, info: Info, v: Value)
    requires v.VList? || v.VSet?
    requires Covers(w, r) && SameKinds(w, r) && Proper(w, info, v)
    ensures UnionsRead(w, r, info, v) <==> UnionsRead(w, w, info, v)
    decreases v, 1
  {
    hide Covers, SameKinds, Apart;
    if (v.VList? && info.ListOf?) || (v.VSet? && info.SetOf?) {
      forall i | 0 <= i < |v.es|
        ensures UnionsRead(w, r, info.elem, v.es[i]) <==> UnionsRead(w, w, info.elem, v.es[i])
      {
        CoversRead(w, r, info.elem, v.es[i]);
      }
    }
  }

  lemma {:induction false} CoversHash(w: Schema, r: Schema, info: Info, v: Value)
    requires v.VHash?
    requires Covers(w, r) && SameKinds(w, r) && Proper(w, info, v)
    ensures UnionsRead(w, r, info, v) <==> UnionsRead(w, w, info, v)
    decreases v, 1
  {
    hide Covers, SameKinds, Apart;
    if info.MapOf? {
      forall i | 0 <= i < |v.ps|
        ensures UnionsRead(w, r, info.key, v.ps[i].0) && UnionsRead(w, r, info.elem, v.ps[i].1)
           <==> UnionsRead(w, w, info.key, v.ps[i].0) && UnionsRead(w, w, info.elem, v.ps[i].1)
      {
        CoversPair(w, r, info.key, info.elem, v.ps[i]);
      }
    }
  }

  lemma {:induction false} CoversPair(w: Schema, r: Schema, k: Info, e: Info, p: (Value, Value))
    requires Covers(w, r) && SameKinds(w, r) && Proper(w, k, p.0) && Proper(w, e, p.1)
    ensures UnionsRead(w, r, k, p.0) && UnionsRead(w, r, e, p.1) <==> UnionsRead(w, w, k, p.0) && UnionsRead(w, w, e, p.1)
    decreases p, 3
  {
    hide Covers, SameKinds, Proper, UnionsRead;
    CoversRead(w, r, k, p.0);
    CoversRead(w, r, e, p.1);
  }

  lemma {:induction false} CoversObj(w: Schema, r: Schema, info: Info, v: Value)
    requires v.VObj?
    requires Covers(w, r) && SameKinds(w, r) && Proper(w, info, v)
    ensures UnionsRead(w, r, info, v) <==> UnionsRead(w, w, info, v)
    decreases v, 1
  {
    hide FieldAt;
    var k := v.klass;
    if info.Obj? && k in w {
      forall fid | fid in v.fields
        ensures Shared(w, r, k, fid) && Shared(w, w, k, fid)
        ensures UnionsRead(w, r, FieldAt(w[k].fields, fid).value.info, v.fields[fid]) <==> UnionsRead(w, w, FieldAt(w[k].fields, fid).value.info, v.fields[fid])
      {
        CoversRead(w, r, FieldAt(w[k].fields, fid).value.info, v.fields[fid]);
      }
    }
  }

  /** Everything that v holds, u holds too, at every depth. */
  ghost predicate Kept(w: Schema, info: Info, v: Value, u: Value)
    decreases v
  {
    match v
    case VList(es) => if info.ListOf? then u.VList? && |u.es| == |es| && forall i :: 0 <= i < |es| ==> Kept(w, info.elem, es[i], u.es[i]) else u == v
    case VSet(es) => if info.SetOf? then u.VSet? && |u.es| == |es| && forall i :: 0 <= i < |es| ==> Kept(w, info.elem, es[i], u.es[i]) else u == v
    case VHash(ps) =>
      if info.MapOf? then
        && u.VHash? && |u.ps| == |ps|
        && forall i :: 0 <= i < |ps| ==> Kept(w, info.key, ps[i].0, u.ps[i].0) && Kept(w, info.elem, ps[i].1, u.ps[i].1)
      else u == v
    case VObj(k, fields) =>
      if k in w then
        && u.VObj? && u.klass == k
        && forall fid :: fid in fields && Has(w[k].fields, fid) ==> fid in u.fields && Kept(w, FieldAt(w[k].fields, fid).value.info, fields[fid], u.fields[fid])
      else u == v
    case _ => u == v
  }

  lemma {:induction false} ReceivedKept(w: Schema, r: Schema, info: Info, v: Value, u: Value)
    requires Covers(w, r) && Received(w, r, info, v, u)
    ensures Kept(w, info, v, u)
    decreases v, 2
  {
    match v
    case VList(es) =>
      if info.ListOf? {
        KeptElems(w, r, info.elem, es, u.es);
      }
    case VSet(es) =>
      if info.SetOf? {
        KeptElems(w, r, info.elem, es, u.es);
      }
    case VHash(ps) =>
      if info.MapOf? {
        KeptPairs(w, r, info.key, info.elem, ps, u.ps);
      }
    case VObj(k, fields) =>
      if k in w {
        KeptObj(w, r, info, v, u);
      }
    case _ =>
  }

  lemma {:induction false} KeptElems(w: Schema, r: Schema, e: Info, es: seq<Value>, us: seq<Value>)
    requires Covers(w, r) && |us| == |es| && forall i :: 0 <= i < |es| ==> Received(w, r, e, es[i], us[i])
    ensures forall i :: 0 <= i < |es| ==> Kept(w, e, es[i], us[i])
    decreases es
  {
    hide Covers, Received, Kept;
    forall i | 0 <= i < |es|
      ensures Kept(w, e, es[i], us[i])
    {
      ReceivedKept(w, r, e, es[i], us[i]);
    }
  }

  lemma {:induction false} KeptPairs(w: Schema, r: Schema, k: Info, e: Info, ps: seq<(Value, Value)>, us: seq<(Value, Value)>)
    requires Covers(w, r) && |us| == |ps|
    requires forall i :: 0 <= i < |ps| ==> Received(w, r, k, ps[i].0, us[i].0) && Received(w, r, e, ps[i].1, us[i].1)
    ensures forall i :: 0 <= i < |ps| ==> Kept(w, k, ps[i].0, us[i].0) && Kept(w, e, ps[i].1, us[i].1)
    decreases ps
  {
    hide Covers, Received, Kept;
    forall i | 0 <= i < |ps|
      ensures Kept(w, k, ps[i].0, us[i].0) && Kept(w, e, ps[i].1, us[i].1)
    {
      KeptPair(w, r, k, e, ps[i], us[i]);
    }
  }

  lemma {:induction false} KeptPair(w: Schema, r: Schema, k: Info, e: Info, p: (Value, Value), u: (Value, Value))
    requires Covers(w, r) && Received(w, r, k, p.0, u.0) && Received(w, r, e, p.1, u.1)
    ensures Kept(w, k, p.0, u.0) && Kept(w, e, p.1, u.1)
    decreases p, 3
  {
    hide Covers, Received, Kept;
    ReceivedKept(w, r, k, p.0, u.0);
    ReceivedKept(w, r, e, p.1, u.1);
  }

  lemma {:induction false} KeptObj(w: Schema, r: Schema, info: Info, v: Value, u: Value)
    requires Covers(w, r) && v.VObj? && v.klass in w && Received(w, r, info, v, u)
    ensures Kept(w, info, v, u)
    decreases v, 1
  {
    hide FieldAt, New;
    var k := v.klass;
    ReceivedUnfold(w, r, info, v, u);
    forall fid | fid in v.fields && Has(w[k].fields, fid)
      ensures fid in u.fields && Kept(w, FieldAt(w[k].fields, fid).value.info, v.fields[fid], u.fields[fid])
    {
      assert Shared(w, r, k, fid);
      ReceivedKept(w, r, FieldAt(w[k].fields, fid).value.info, v.fields[fid], u.fields[fid]);
    }
  }

  // ----- the theorems

  /**
   * After an audit without failures a new reader takes in what an old writer writes, with all it held, exactly when the
   * types of the two files fit the value. Names may have changed their meaning.
   */
  lemma AcceptedIff(news: seq<StructDecl>, olds: seq<StructDecl>, info: Info, v: Value, rest: seq<Token>)
    requires Accepted(news, olds) && KnownInfo(SchemaOf(olds), info)
    requires Writable(SchemaOf(olds), info, v) && Proper(SchemaOf(olds), info, v)
    ensures var w, r := SchemaOf(olds), SchemaOf(news);
            var u := Convert(w, r, info, v);
            && WriteAny(w, info, v).Ok?
            && (ReadAny(r, TypeOf(info), info, WriteAny(w, info, v).value + rest) == Ok((u, rest)) <==> Fits(w, r, info, info, v))
            && Received(w, r, info, v, u) && Kept(w, info, v, u)
  {
    hide Accepted, Covers, KnownInfo, Writable, Proper, Convert, WriteAny, ReadAny, Received, Kept, SchemaOf, Fits, Setting;
    var w, r := SchemaOf(olds), SchemaOf(news);
    AcceptedCovers(news, olds);
    WritesIff(w, info, v);
    ReadsIff(w, r, info, info, v, rest);
    ReceivedIff(w, r, info, v, Convert(w, r, info, v));
    ReceivedKept(w, r, info, v, Convert(w, r, info, v));
  }

  /** Where names kept their meaning, every value fits whose unions hold at most one field. */
  lemma NewReadsOld(m: map<string, Info>, news: seq<StructDecl>, olds: seq<StructDecl>, info: Info, v: Value, rest: seq<Token>)
    requires Audited(m, news, olds) && KnownInfo(SchemaOf(olds), info)
    requires Writable(SchemaOf(olds), info, v) && Proper(SchemaOf(olds), info, v)
    ensures var w, r := SchemaOf(olds), SchemaOf(news);
            var u := Convert(w, r, info, v);
            && WriteAny(w, info, v).Ok?
            && (ReadAny(r, TypeOf(info), info, WriteAny(w, info, v).value + rest) == Ok((u, rest)) <==> UnionsRead(w, w, info, v))
            && Received(w, r, info, v, u) && Kept(w, info, v, u)
  {
    hide Accepted, Meant, Covers, KnownInfo, Writable, Proper, Convert, WriteAny, ReadAny, Received, Kept, SchemaOf, Fits, UnionsRead, SameTypes, GoodSchema;
    var w, r := SchemaOf(olds), SchemaOf(news);
    AuditSound(m, news, olds);
    AcceptedIff(news, olds, info, v, rest);
    CompatibleFits(w, r, info, v);
    CoversRead(w, r, info, v);
  }

  /**
   * An old reader takes in what a new writer writes of the old types, less the added fields, exactly when every union in it
   * holds at most one field and the reader knows it.
   */
  lemma OldReadsNew(m: map<string, Info>, news: seq<StructDecl>, olds: seq<StructDecl>, info: Info, v: Value, rest: seq<Token>)
    requires Audited(m, news, olds) && KnownInfo(SchemaOf(olds), info)
    requires Writable(SchemaOf(news), info, v) && Proper(SchemaOf(news), info, v)
    ensures var w, r := SchemaOf(news), SchemaOf(olds);
            var u := Convert(w, r, info, v);
            && WriteAny(w, info, v).Ok?
            && (ReadAny(r, TypeOf(info), info, WriteAny(w, info, v).value + rest) == Ok((u, rest)) <==> UnionsRead(w, r, info, v))
            && Received(w, r, info, v, u)
  {
    hide Accepted, Meant, Covers, KnownInfo, Writable, Proper, Convert, WriteAny, ReadAny, Received, SchemaOf, Fits, UnionsRead, SameTypes, GoodSchema;
    var w, r := SchemaOf(news), SchemaOf(olds);
    AuditSound(m, news, olds);
    WritesIff(w, info, v);
    KnownInBoth(r, w, info);
    CompatibleFits(w, r, info, v);
    ReadsIff(w, r, info, info, v, rest);
    ReceivedIff(w, r, info, v, Convert(w, r, info, v));
  }

  // ----- what the audit reports

  /** A type as it is spelled: what a name stands for does not matter. */
  function Spelled(t: IdlType): IdlType {
    match t
    case ListType(e) => ListType(Spelled(e))
    case SetType(e) => SetType(Spelled(e))
    case MapType(k, v) => MapType(Spelled(k), Spelled(v))
    case _ => StructType(NameOf(t))
  }

  /** Every name in the type is one. */
  predicate Named(t: IdlType) {
    match t
    case ListType(e) => Named(e)
    case SetType(e) => Named(e)
    case MapType(k, v) => Named(k) && Named(v)
    case _ => NameOf(t) != ""
  }

  /** The audit's comparison of types is equality of spelling. */
  lemma {:induction false} ComparesSpelling(n: IdlType, o: IdlType)
    requires Named(n) && Named(o)
    ensures CompareType(n, o) <==> Spelled(n) == Spelled(o)
  {
    if n.ListType? && o.ListType? {
      ComparesSpelling(n.elem, o.elem);
    } else if n.SetType? && o.SetType? {
      ComparesSpelling(n.elem, o.elem);
    } else if n.MapType? && o.MapType? {
      ComparesSpelling(n.key, o.key);
      ComparesSpelling(n.val, o.val);
    }
  }

  /** The changes that make the audit fail, f being an old field and g a new one. */
  ghost predicate Breaks(n: StructDecl, o: StructDecl, f: Member, g: Member) {
    || (f in o.fields && !HasKey(n.fields, f.key))
    || (f in o.fields && g in n.fields && f.key == g.key && Spelled(f.ftype) != Spelled(g.ftype))
    || (f in o.fields && g in n.fields && f.key == g.key && (f.req == Required) != (g.req == Required))
    || (f in o.fields && g in n.fields && g.key < f.key && !HasKey(o.fields, g.key))
    || (g in n.fields && !HasKey(o.fields, g.key) && g.req == Required)
  }

  ghost predicate AllNamed(d: StructDecl) {
    forall f :: f in d.fields ==> Named(f.ftype)
  }

  lemma BreaksFails(n: StructDecl, o: StructDecl)
    requires AllNamed(n) && AllNamed(o)
    ensures StructFails(n.fields, o.fields) <==> exists f, g :: Breaks(n, o, f, g)
  {
    hide Named, Spelled, CompareType, HasKey;
    forall f, g | f in o.fields && g in n.fields
      ensures CompareType(g.ftype, f.ftype) <==> Spelled(g.ftype) == Spelled(f.ftype)
    {
      ComparesSpelling(g.ftype, f.ftype);
    }
    if StructFails(n.fields, o.fields) {
      if f :| f in o.fields && !HasKey(n.fields, f.key) {
        assert Breaks(n, o, f, f);
      } else if g, f :| g in n.fields && f in o.fields && g.key == f.key && FieldFails(g, f) {
        assert Breaks(n, o, f, g);
      } else if g, f :| g in n.fields && f in o.fields && g.key < f.key && !HasKey(o.fields, g.key) {
        assert Breaks(n, o, f, g);
      } else {
        var g :| g in n.fields && !HasKey(o.fields, g.key) && g.req == Required;
        assert Breaks(n, o, g, g);
      }
    }
    if f, g :| Breaks(n, o, f, g) {
      assert f in o.fields && g in n.fields && f.key == g.key && Spelled(f.ftype) != Spelled(g.ftype) ==> FieldFails(g, f);
      assert f in o.fields && g in n.fields && f.key == g.key && (f.req == Required) != (g.req == Required) ==> FieldFails(g, f);
    }
  }

  /** The audit fails exactly when an old struct is gone, or some change of its fields breaks it; nothing else counts. */
  lemma FailsIff(news: seq<StructDecl>, olds: seq<StructDecl>)
    requires (forall d :: d in news ==> AllNamed(d)) && forall d :: d in olds ==> AllNamed(d)
    ensures AuditFails(news, olds) <==>
              exists o :: o in olds && (Latest(news, o.name).None? || exists f, g :: Breaks(Latest(news, o.name).value, o, f, g))
  {
    hide Latest, StructFails, AllNamed, Breaks;
    forall o | o in olds && Latest(news, o.name).Some?
      ensures StructFails(Latest(news, o.name).value.fields, o.fields) <==> exists f, g :: Breaks(Latest(news, o.name).value, o, f, g)
    {
      BreaksFails(Latest(news, o.name).value, o);
    }
  }

  // ----- fields that are required

  /** A required field of an accepted change was required before and is required now, whatever type it has. */
  lemma RequiredKept(news: seq<StructDecl>, olds: seq<StructDecl>, n: StructDecl, o: StructDecl, f: Member, g: Member)
    requires !AuditFails(news, olds) && o in olds && Latest(news, o.name) == Some(n)
    requires f in o.fields && g in n.fields && f.key == g.key
    ensures f.req == Required <==> g.req == Required
  {
    hide Latest, CompareType, HasKey;
    assert !PairFails(news, o);
    assert !FieldFails(g, f);
  }

  lemma MemberField(d: StructDecl, f: Member)
    requires f in d.fields
    ensures FieldOf(f) in KlassOf(d).fields
  {
    var i :| 0 <= i < |d.fields| && d.fields[i] == f;
    assert KlassOf(d).fields[i] == FieldOf(f);
  }

  /** So every value that a new program can write has the fields set that the old classes require. */
  lemma RequiredByOld(news: seq<StructDecl>, olds: seq<StructDecl>, k: string, f: Member, v: Value)
    requires Accepted(news, olds) && Latest(olds, k).Some? && f in Latest(olds, k).value.fields && f.req == Required
    requires Writable(SchemaOf(news), Obj(k), v)
    ensures IsSet(v.fields, f.key)
    ensures k in SchemaOf(olds) && v.VObj? && IsSet(Convert(SchemaOf(news), SchemaOf(olds), Obj(k), v).fields, f.key)
  {
    hide Latest, KnownInfo, SchemaOf, KlassOf, Sorted, StructFails, FieldAt, New, Convert, HasKey, CompareType;
    var r, w := SchemaOf(olds), SchemaOf(news);
    InSchema(olds, k);
    var o := Latest(olds, k).value;
    var n, g := MemberAfter(news, olds, k, o, f);
    MemberField(n, g);
    MemberField(o, f);
    InSchema(news, k);
    assert IsSet(v.fields, f.key);
    HasMember(o, f);
    HasMember(n, g);
    ConvertObj(w, r, Obj(k), v);
    assert Shared(w, r, k, f.key);
    NotNil(w, r, FieldAt(w[k].fields, f.key).value.info, v.fields[f.key]);
  }

  lemma HasMember(d: StructDecl, f: Member)
    requires f in d.fields
    ensures Has(KlassOf(d).fields, f.key)
  {
    hide KlassOf;
    HasIff(d, f.key);
  }

  /** The new form of an old field. */
  lemma MemberAfter(news: seq<StructDecl>, olds: seq<StructDecl>, k: string, o: StructDecl, f: Member) returns (n: StructDecl, g: Member)
    requires !AuditFails(news, olds) && Latest(olds, k) == Some(o) && f in o.fields
    ensures Latest(news, k) == Some(n) && g in n.fields && g.key == f.key && (f.req == Required <==> g.req == Required)
  {
    hide Latest, CompareType;
    assert !PairFails(news, o);
    n := Latest(news, k).value;
    g :| g in n.fields && g.key == f.key;
    RequiredKept(news, olds, n, o, f, g);
  }

  /** And every value that an old program can write has the fields set that the new classes require. */
  lemma RequiredByNew(news: seq<StructDecl>, olds: seq<StructDecl>, k: string, g: Member, v: Value)
    requires Accepted(news, olds) && Latest(olds, k).Some? && Latest(news, k).Some? && g in Latest(news, k).value.fields && g.req == Required
    requires Writable(SchemaOf(olds), Obj(k), v)
    ensures IsSet(v.fields, g.key)
  {
    hide Latest, KnownInfo, SchemaOf, KlassOf, Sorted, FieldAt, CompareType;
    InSchema(olds, k);
    var n, o := Latest(news, k).value, Latest(olds, k).value;
    assert !PairFails(news, o);
    assert HasKey(o.fields, g.key);
    var f :| f in o.fields && f.key == g.key;
    RequiredKept(news, olds, n, o, f, g);
    MemberField(o, f);
  }

  // ----- what the audit misses

  function OneField(name: string, f: Member): seq<StructDecl> {
    [StructDecl(name, false, [f])]
  }

  lemma OneLatest(d: StructDecl)
    ensures Latest([d], d.name) == Some(d)
  {
  }

  /** A typedef may come to mean something of another wire type unnoticed; reading then raises a type mismatch. */
  lemma TypedefHole(k: string, name: string, t: IdlType, u: IdlType, v: Value)
    requires name != "" && TypeOf(InfoOf(t)) != TypeOf(InfoOf(u)) && TypeOf(InfoOf(t)) != TStop && !v.VNil?
    requires var olds := OneField(k, Member(1, "f", Typedef(name, t), Optional, None)); WriteAny(SchemaOf(olds), InfoOf(t), v).Ok?
    ensures var olds := OneField(k, Member(1, "f", Typedef(name, t), Optional, None));
            var news := OneField(k, Member(1, "f", Typedef(name, u), Optional, None));
            var w, r := SchemaOf(olds), SchemaOf(news);
            && !AuditFails(news, olds)
            && WriteAny(w, Obj(k), VObj(k, map[1 := v])).Ok?
            && ReadAny(r, TStruct, Obj(k), WriteAny(w, Obj(k), VObj(k, map[1 := v])).value) == Err(TypeMismatch)
  {
    hide WriteAny, ReadAny, SchemaOf;
    var a, b := Member(1, "f", Typedef(name, t), Optional, None), Member(1, "f", Typedef(name, u), Optional, None);
    var olds, news := OneField(k, a), OneField(k, b);
    var w, r := SchemaOf(olds), SchemaOf(news);
    NotNoticed(k, a, b);
    OneClass(k, a);
    OneClass(k, b);
    WritesOne(w, k, FieldOf(a), v);
    ReadsOther(r, k, FieldOf(b), [FieldHead(TypeOf(InfoOf(t)), 1)] + WriteAny(w, InfoOf(t), v).value + [Stop]);
  }

  /** If it comes to mean a list of other elements, the field is lost without any error. */
  lemma ListHole(k: string, name: string, t: IdlType, u: IdlType, v: Value, rest: seq<Token>)
    requires name != "" && TypeOf(InfoOf(t)) != TypeOf(InfoOf(u))
    requires var w := SchemaOf(OneField(k, Member(1, "f", Typedef(name, ListType(t)), Optional, None)));
             KnownInfo(w, InfoOf(t)) && Sent(w, ListOf(InfoOf(t)), v)
    ensures var olds := OneField(k, Member(1, "f", Typedef(name, ListType(t)), Optional, None));
            var news := OneField(k, Member(1, "f", Typedef(name, ListType(u)), Optional, None));
            var w, r := SchemaOf(olds), SchemaOf(news);
            && !AuditFails(news, olds)
            && WriteAny(w, Obj(k), VObj(k, map[1 := v])).Ok?
            && ReadAny(r, TStruct, Obj(k), WriteAny(w, Obj(k), VObj(k, map[1 := v])).value + rest) == Ok((VObj(k, map[]), rest))
  {
    hide WriteAny, ReadAny, SchemaOf, Proper, GoodSchema, AuditFails, OneField;
    var a := Member(1, "f", Typedef(name, ListType(t)), Optional, None);
    var b := Member(1, "f", Typedef(name, ListType(u)), Optional, None);
    var w, r := SchemaOf(OneField(k, a)), SchemaOf(OneField(k, b));
    var e := ListOf(InfoOf(t));
    assert InfoOf(a.ftype) == e && InfoOf(b.ftype) == ListOf(InfoOf(u));
    NotNoticed(k, a, b);
    OneClass(k, a);
    OneClass(k, b);
    OneGood(k, a);
    SentNotNil(w, e, v);
    WritesOne(w, k, FieldOf(a), v);
    DropsList(w, r, e, ListOf(InfoOf(u)), v, [Stop] + rest);
    ReadsOne(r, k, FieldOf(b), WriteAny(w, e, v).value, VNil, rest);
  }

  /** A map of base types comes back whole whatever the new types are: maps are read by the types the stream announces. */
  lemma MapUnharmed(k: string, name: string, t: IdlType, t': IdlType, u: IdlType, u': IdlType, v: Value, rest: seq<Token>)
    requires name != "" && InfoOf(t).Prim? && InfoOf(t').Prim?
    requires var r := SchemaOf(OneField(k, Member(1, "f", Typedef(name, MapType(u, u')), Optional, None)));
             KnownInfo(r, InfoOf(u)) && KnownInfo(r, InfoOf(u'))
    requires var w := SchemaOf(OneField(k, Member(1, "f", Typedef(name, MapType(t, t')), Optional, None)));
             KnownInfo(w, InfoOf(t)) && KnownInfo(w, InfoOf(t')) && Sent(w, MapOf(InfoOf(t), InfoOf(t')), v)
    ensures var olds := OneField(k, Member(1, "f", Typedef(name, MapType(t, t')), Optional, None));
            var news := OneField(k, Member(1, "f", Typedef(name, MapType(u, u')), Optional, None));
            var w, r := SchemaOf(olds), SchemaOf(news);
            && !AuditFails(news, olds)
            && WriteAny(w, Obj(k), VObj(k, map[1 := v])).Ok?
            && ReadAny(r, TStruct, Obj(k), WriteAny(w, Obj(k), VObj(k, map[1 := v])).value + rest) == Ok((VObj(k, map[1 := v]), rest))
  {
    hide WriteAny, ReadAny, SchemaOf, KnownInfo, Proper, GoodSchema, Fits, Convert, SameKinds, AuditFails, OneField;
    var a := Member(1, "f", Typedef(name, MapType(t, t')), Optional, None);
    var b := Member(1, "f", Typedef(name, MapType(u, u')), Optional, None);
    var w, r := SchemaOf(OneField(k, a)), SchemaOf(OneField(k, b));
    var e := MapOf(InfoOf(t), InfoOf(t'));
    MapInfo(name, t, t');
    MapInfo(name, u, u');
    MapKnown(w, InfoOf(t), InfoOf(t'));
    MapKnown(r, InfoOf(u), InfoOf(u'));
    NotNoticed(k, a, b);
    OneClass(k, a);
    OneClass(k, b);
    OneGood(k, a);
    OneGood(k, b);
    OneKinds(k, a, b);
    SentNotNil(w, e, v);
    AtomsFit(w, r, InfoOf(t), InfoOf(t'), InfoOf(u), InfoOf(u'), v);
    WritesOne(w, k, FieldOf(a), v);
    ReadsAny(w, r, e, MapOf(InfoOf(u), InfoOf(u')), v, [Stop] + rest);
    ReadsOne(r, k, FieldOf(b), WriteAny(w, e, v).value, v, rest);
  }

  lemma AtomsFit(w: Schema, r: Schema, k: Info, e: Info, k': Info, e': Info, v: Value)
    requires k.Prim? && e.Prim? && Sent(w, MapOf(k, e), v)
    ensures Fits(w, r, MapOf(k, e), MapOf(k', e'), v) && Convert(w, r, MapOf(k, e), v) == v
  {
    hide Proper, Convert, Fits, WriteAny;
    HashSent(w, k, e, v);
    HashFits(w, r, k, e, MapOf(k', e'), v);
    forall i | 0 <= i < |v.ps|
      ensures Fits(w, r, k, k', v.ps[i].0) && Fits(w, r, e, e', v.ps[i].1)
      ensures Convert(w, r, k, v.ps[i].0) == v.ps[i].0 && Convert(w, r, e, v.ps[i].1) == v.ps[i].1
    {
      AtomFits(w, r, k.t, k', v.ps[i].0);
      AtomFits(w, r, e.t, e', v.ps[i].1);
      AtomSame(w, r, k.t, v.ps[i].0);
      AtomSame(w, r, e.t, v.ps[i].1);
    }
    assert ConvertPairs(w, r, k, e, v.ps) == v.ps;
  }

  lemma MapInfo(name: string, t: IdlType, u: IdlType)
    ensures InfoOf(Typedef(name, MapType(t, u))) == MapOf(InfoOf(t), InfoOf(u))
  {
    assert InfoOf(MapType(t, u)) == MapOf(InfoOf(t), InfoOf(u));
  }

  lemma MapKnown(s: Schema, k: Info, e: Info)
    ensures KnownInfo(s, MapOf(k, e)) <==> KnownInfo(s, k) && KnownInfo(s, e)
  {
  }

  lemma AtomSame(w: Schema, r: Schema, t: WireType, v: Value)
    requires Sent(w, Prim(t), v)
    ensures Convert(w, r, Prim(t), v) == v
  {
  }

  lemma SentNotNil(w: Schema, info: Info, v: Value)
    requires WriteAny(w, info, v).Ok? && (info.ListOf? || info.MapOf?)
    ensures !v.VNil?
  {
    hide WriteElems, WritePairs;
  }

  lemma OneGood(k: string, f: Member)
    requires KnownInfo(SchemaOf(OneField(k, f)), InfoOf(f.ftype))
    ensures GoodSchema(SchemaOf(OneField(k, f)))
  {
    hide SchemaOf, KnownInfo;
    assert Sorted([f]);
    FileGood(OneField(k, f));
  }

  lemma OneKinds(k: string, a: Member, b: Member)
    ensures SameKinds(SchemaOf(OneField(k, a)), SchemaOf(OneField(k, b)))
  {
    hide KlassOf;
    KlassKind(StructDecl(k, false, [a]));
    KlassKind(StructDecl(k, false, [b]));
  }

  /** Reading an object of one field. */
  lemma ReadsOne(r: Schema, k: string, f: FieldDef, x: seq<Token>, c: Value, rest: seq<Token>)
    requires k in r && !r[k].isUnion && r[k].fields == [f] && f.fid == 1 && f.default.None? && TypeOf(f.info) != TStop
    requires ReadAny(r, TypeOf(f.info), f.info, x + ([Stop] + rest)) == Ok((c, [Stop] + rest))
    ensures ReadAny(r, TStruct, Obj(k), [FieldHead(TypeOf(f.info), 1)] + x + [Stop] + rest) == Ok((VObj(k, if c.VNil? then map[] else map[1 := c]), rest))
  {
    hide ReadAny, ReadFields;
    var ts := [FieldHead(TypeOf(f.info), 1)] + x + [Stop] + rest;
    assert ts[1..] == x + ([Stop] + rest);
    assert FieldAt([f], 1) == Some(f);
    assert Defaults([f][1..]) == map[];
    assert New(r, k).fields == map[];
    ObjRead(r, k, ts);
    FieldStep(r, k, map[], ts, c, [Stop] + rest);
    EndStep(r, k, if c.VNil? then map[] else map[1 := c], rest);
  }

  lemma NotNoticed(k: string, a: Member, b: Member)
    requires a.key == b.key && !FieldFails(b, a)
    ensures !AuditFails(OneField(k, b), OneField(k, a))
  {
    hide FieldFails;
    OneLatest(StructDecl(k, false, [b]));
    assert HasKey([b], a.key) && HasKey([a], b.key) by {
      assert b in [b] && a in [a];
    }
  }

  lemma OneClass(k: string, f: Member)
    ensures var s := SchemaOf(OneField(k, f)); k in s && !s[k].isUnion && s[k].fields == [FieldOf(f)]
  {
    hide FieldOf;
    InSchema(OneField(k, f), k);
    OneLatest(StructDecl(k, false, [f]));
  }

  lemma WritesOne(w: Schema, k: string, f: FieldDef, v: Value)
    requires k in w && w[k].fields == [f] && f.optional && f.fid == 1 && !v.VNil? && WriteAny(w, f.info, v).Ok?
    ensures WriteAny(w, Obj(k), VObj(k, map[1 := v])) == Ok([FieldHead(TypeOf(f.info), 1)] + WriteAny(w, f.info, v).value + [Stop])
  {
    hide WriteAny, WriteFields;
    var o := VObj(k, map[1 := v]);
    OneWritten(w, f, o, v);
    StructOf(w, k, o);
  }

  lemma OneWritten(w: Schema, f: FieldDef, o: Value, v: Value)
    requires o.VObj? && o.fields == map[1 := v] && f.fid == 1 && !v.VNil? && WriteAny(w, f.info, v).Ok?
    ensures WriteFields(w, [f], o) == Ok([FieldHead(TypeOf(f.info), 1)] + WriteAny(w, f.info, v).value)
  {
    hide WriteAny;
    var x := WriteAny(w, f.info, v).value;
    assert [f][1..] == [];
    assert WriteFields(w, [], o) == Ok([]);
    assert [FieldHead(TypeOf(f.info), 1)] + x + [] == [FieldHead(TypeOf(f.info), 1)] + x;
  }

  lemma StructOf(w: Schema, k: string, o: Value)
    requires k in w && o.VObj? && o.klass == k && MandatorySet(w[k].fields, o.fields) && WriteFields(w, w[k].fields, o).Ok?
    ensures WriteAny(w, Obj(k), o) == Ok(WriteFields(w, w[k].fields, o).value + [Stop])
  {
    hide WriteFields, MandatorySet;
  }

  lemma ReadsOther(r: Schema, k: string, f: FieldDef, ts: seq<Token>)
    requires k in r && !r[k].isUnion && r[k].fields == [f] && f.fid == 1
    requires AtField(ts) && ts[0].fid == 1 && ts[0].ftype != TypeOf(f.info)
    ensures ReadAny(r, TStruct, Obj(k), ts) == Err(TypeMismatch)
  {
    hide ReadUnion, New;
    assert FieldAt([f], 1) == Some(f);
  }

  /** Adding an optional field at the end is accepted, so the theorems above apply to it. */
  lemma OptionalAdded(k: string)
    ensures var olds := [StructDecl(k, false, [])];
            var news := OneField(k, Member(1, "f", BaseType(I32Base), Optional, None));
            Audited(Meaning(map[]), news, olds) && k in SchemaOf(olds) && KnownInfo(SchemaOf(olds), Obj(k))
  {
    hide SchemaOf, Meaning;
    var d := StructDecl(k, false, []);
    var f := Member(1, "f", BaseType(I32Base), Optional, None);
    var n := StructDecl(k, false, [f]);
    OneLatest(d);
    OneLatest(n);
    InSchema([d], k);
    OneClass(k, f);
    BaseMeaning(map[], I32Base);
    forall name | Latest([n], name).Some? && Latest([d], name).Some?
      ensures Latest([n], name).value.isUnion == Latest([d], name).value.isUnion
    {
      assert name == k;
    }
  }

  /** A field added without `required` or `optional` passes the audit, but a new writer must set it: what an old writer sent cannot be sent on. */
  lemma RequirednessHole(k: string)
    ensures var olds := [StructDecl(k, false, [])];
            var news := OneField(k, Member(1, "f", BaseType(I32Base), Default, None));
            var w, r, v := SchemaOf(olds), SchemaOf(news), VObj(k, map[]);
            && !AuditFails(news, olds)
            && WriteAny(w, Obj(k), v) == Ok([Stop])
            && ReadAny(r, TStruct, Obj(k), [Stop]) == Ok((v, []))
            && WriteAny(r, Obj(k), v) == Err(MissingMandatory)
            && !Relayable(w, r, Obj(k), v)
  {
    hide SchemaOf;
    var d := StructDecl(k, false, []);
    var f := Member(1, "f", BaseType(I32Base), Default, None);
    var w, r, v := SchemaOf([d]), SchemaOf(OneField(k, f)), VObj(k, map[]);
    OneLatest(d);
    OneLatest(StructDecl(k, false, [f]));
    InSchema([d], k);
    OneClass(k, f);
    assert w[k].fields == [];
    assert WriteFields(w, [], v) == Ok([]);
    StructOf(w, k, v);
    assert [] + [Stop] == [Stop];
    assert FieldOf(f) in r[k].fields && !IsSet(v.fields, 1);
    assert Defaults(r[k].fields[1..]) == map[];
    assert New(r, k) == v;
  }
}
