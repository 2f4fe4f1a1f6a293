/** When writing succeeds, when reading gives back what was written, and what another schema receives. */
module RoundTrips {
  import opened Wrappers
  import opened Wire
  import opened Interop

  // ----- when writing succeeds

  ghost predicate AtomWritable(t: WireType, v: Value) {
    match t
    case TBool => v.VBool?
    case TDouble => v.VDouble?
    case TString => v.VStr?
    case TByte | TI16 | TI32 | TI64 => v.VInt? && InRange(t, v.i)
    case _ => true
  }

  /** Of the declared type and in range throughout, with every mandatory field set. */
  ghost predicate Writable(s: Schema, info: Info, v: Value)
    decreases v
  {
    match info
    case Prim(t) => AtomWritable(t, v)
    case ListOf(e) => v.VList? && forall i :: 0 <= i < |v.es| ==> Writable(s, e, v.es[i])
    case SetOf(e) => v.VSet? && forall i :: 0 <= i < |v.es| ==> Writable(s, e, v.es[i])
    case MapOf(k, e) => v.VHash? && forall i :: 0 <= i < |v.ps| ==> Writable(s, k, v.ps[i].0) && Writable(s, e, v.ps[i].1)
    case Obj(k) =>
      && v.VObj? && v.klass == k && k in s
      && (forall f :: f in s[k].fields && !f.optional ==> IsSet(v.fields, f.fid))
      && (forall f :: f in s[k].fields && IsSet(v.fields, f.fid) ==> Writable(s, f.info, v.fields[f.fid]))
  }

  /** Writing fails exactly on the values that are not writable. */
  lemma {:induction false} WritesIff(s: Schema, info: Info, v: Value)
    ensures WriteAny(s, info, v).Ok? <==> Writable(s, info, v)
    decreases v, 2
  {
    match info
    case Prim(t) =>
    case ListOf(e) =>
      if v.VList? {
        ElemsIff(s, e, v.es);
      }
    case SetOf(e) =>
      if v.VSet? {
        ElemsIff(s, e, v.es);
      }
    case MapOf(k, e) =>
      if v.VHash? {
        PairsIff(s, k, e, v.ps);
      }
    case Obj(k) =>
      if v.VObj? && v.klass == k && k in s {
        FieldsIff(s, s[k].fields, v);
        assert MandatorySet(s[k].fields, v.fields) <==> forall f :: f in s[k].fields && !f.optional ==> IsSet(v.fields, f.fid);
      }
  }

  lemma {:induction false} ElemsIff(s: Schema, e: Info, es: seq<Value>)
    ensures WriteElems(s, e, es).Ok? <==> forall i :: 0 <= i < |es| ==> Writable(s, e, es[i])
    decreases es, 0
  {
    hide WriteAny, Writable;
    if es != [] {
      WritesIff(s, e, es[0]);
      ElemsIff(s, e, es[1..]);
      assert es == [es[0]] + es[1..];
    }
  }

  lemma {:induction false} PairsIff(s: Schema, k: Info, e: Info, ps: seq<(Value, Value)>)
    ensures WritePairs(s, k, e, ps).Ok? <==> forall i :: 0 <= i < |ps| ==> Writable(s, k, ps[i].0) && Writable(s, e, ps[i].1)
    decreases ps, 0
  {
    hide WriteAny, Writable, WritePair;
    if ps != [] {
      PairIff(s, k, e, ps[0]);
      PairsIff(s, k, e, ps[1..]);
      assert ps == [ps[0]] + ps[1..];
    }
  }

  lemma {:induction false} PairIff(s: Schema, k: Info, e: Info, p: (Value, Value))
    ensures WritePair(s, k, e, p).Ok? <==> Writable(s, k, p.0) && Writable(s, e, p.1)
    decreases p, 3
  {
    hide WriteAny, Writable;
    WritesIff(s, k, p.0);
    WritesIff(s, e, p.1);
  }

  lemma {:induction false} FieldsIff(s: Schema, fs: seq<FieldDef>, v: Value)
    requires v.VObj?
    ensures WriteFields(s, fs, v).Ok? <==> forall f :: f in fs && IsSet(v.fields, f.fid) ==> Writable(s, f.info, v.fields[f.fid])
    decreases v, 0, |fs|
  {
    hide WriteAny, Writable;
    if fs != [] {
      FieldsIff(s, fs[1..], v);
      if IsSet(v.fields, fs[0].fid) {
        WritesIff(s, fs[0].info, v.fields[fs[0].fid]);
      }
      assert forall f :: f in fs <==> f == fs[0] || f in fs[1..];
    }
  }

  // ----- when reading gives back what was written

  /** Throughout the value no field is nil for which its struct has a default. */
  ghost predicate Filled(s: Schema, info: Info, v: Value)
    decreases v
  {
    match v
    case VList(es) => info.ListOf? ==> forall i :: 0 <= i < |es| ==> Filled(s, info.elem, es[i])
    case VSet(es) => info.SetOf? ==> forall i :: 0 <= i < |es| ==> Filled(s, info.elem, es[i])
    case VHash(ps) => info.MapOf? ==> forall i :: 0 <= i < |ps| ==> Filled(s, info.key, ps[i].0) && Filled(s, info.elem, ps[i].1)
    case VObj(k, fields) =>
      k in s ==>
        && (forall fid :: fid in New(s, k).fields ==> fid in fields)
        && (forall fid :: fid in fields && Has(s[k].fields, fid) ==> Filled(s, FieldAt(s[k].fields, fid).value.info, fields[fid]))
    case _ => true
  }

  lemma {:induction false} FilledIff(s: Schema, info: Info, v: Value)
    requires GoodSchema(s) && Sent(s, info, v)
    ensures Convert(s, s, info, v) == v <==> Filled(s, info, v)
    decreases v, 2
  {
    hide GoodSchema, Sent;
    match info
    case ListOf(e) =>
      ListKind(s, info, v);
      FilledList(s, e, v);
    case SetOf(e) =>
      ListKind(s, info, v);
      FilledList(s, e, v);
    case MapOf(k, e) => FilledHash(s, k, e, v);
    case Obj(k) => FilledObj(s, k, v);
    case Prim(t) => PlainAtom(s, t, v);
  }

  lemma PlainAtom(s: Schema, t: WireType, v: Value)
    requires Sent(s, Prim(t), v)
    ensures !v.VList? && !v.VSet? && !v.VHash? && !v.VObj?
  {
  }

  lemma ListKind(s: Schema, info: Info, v: Value)
    requires Sent(s, info, v)
    ensures (info.ListOf? ==> v.VList?) && (info.SetOf? ==> v.VSet?)
  {
    hide WriteElems, WritePairs, WriteStruct;
  }

  lemma {:induction false} FilledList(s: Schema, e: Info, v: Value)
    requires v.VList? || v.VSet?
    requires GoodSchema(s) && Sent(s, Container(e, v), v)
    ensures Convert(s, s, Container(e, v), v) == v <==> Filled(s, Container(e, v), v)
    decreases v, 1
  {
    hide GoodSchema, Sent, Apart;
    ListSent(s, e, v);
    var cs := ConvertAll(s, s, e, v.es);
    forall i | 0 <= i < |v.es|
      ensures cs[i] == v.es[i] <==> Filled(s, e, v.es[i])
    {
      FilledIff(s, e, v.es[i]);
    }
    SameElems(cs, v.es);
  }

  lemma SameElems<T>(a: seq<T>, b: seq<T>)
    requires |a| == |b|
    ensures a == b <==> forall i :: 0 <= i < |b| ==> a[i] == b[i]
  {
  }

  lemma {:induction false} FilledHash(s: Schema, k: Info, e: Info, v: Value)
    requires GoodSchema(s) && Sent(s, MapOf(k, e), v)
    ensures Convert(s, s, MapOf(k, e), v) == v <==> Filled(s, MapOf(k, e), v)
    decreases v, 1
  {
    hide GoodSchema, Sent, Apart;
    HashSent(s, k, e, v);
    var cs := ConvertPairs(s, s, k, e, v.ps);
    forall i | 0 <= i < |v.ps|
      ensures cs[i] == v.ps[i] <==> Filled(s, k, v.ps[i].0) && Filled(s, e, v.ps[i].1)
    {
      FilledPair(s, k, e, v.ps[i]);
    }
    SameElems(cs, v.ps);
  }

  lemma {:induction false} FilledPair(s: Schema, k: Info, e: Info, p: (Value, Value))
    requires GoodSchema(s) && Sent(s, k, p.0) && Sent(s, e, p.1)
    ensures (Convert(s, s, k, p.0), Convert(s, s, e, p.1)) == p <==> Filled(s, k, p.0) && Filled(s, e, p.1)
    decreases p, 3
  {
    hide GoodSchema, Sent, Filled, Convert;
    FilledIff(s, k, p.0);
    FilledIff(s, e, p.1);
  }

  lemma {:induction false} FilledObj(s: Schema, k: string, v: Value)
    requires GoodSchema(s) && Sent(s, Obj(k), v)
    ensures Convert(s, s, Obj(k), v) == v <==> Filled(s, Obj(k), v)
    decreases v, 1
  {
    hide GoodSchema, Sent, FieldAt, New;
    ObjSent(s, k, v);
    var more := map fid | fid in v.fields && Shared(s, s, k, fid) :: Convert(s, s, FieldAt(s[k].fields, fid).value.info, v.fields[fid]);
    forall fid | fid in v.fields
      ensures fid in more && (more[fid] == v.fields[fid] <==> Filled(s, FieldAt(s[k].fields, fid).value.info, v.fields[fid]))
    {
      FilledField(s, k, v, fid);
    }
    OverDefaults(New(s, k).fields, more, v.fields);
  }

  lemma {:induction false} FilledField(s: Schema, k: string, v: Value, fid: int)
    requires GoodSchema(s) && Sent(s, Obj(k), v) && v.VObj? && k in s && fid in v.fields
    ensures Has(s[k].fields, fid)
    ensures var info := FieldAt(s[k].fields, fid).value.info;
            Convert(s, s, info, v.fields[fid]) == v.fields[fid] <==> Filled(s, info, v.fields[fid])
    decreases v.fields[fid], 3
  {
    hide GoodSchema, Sent, Filled, Convert, FieldAt;
    ObjSent(s, k, v);
    FieldSent(s, k, v, fid);
    FilledIff(s, FieldAt(s[k].fields, fid).value.info, v.fields[fid]);
  }

  lemma OverDefaults(d: map<int, Value>, c: map<int, Value>, fields: map<int, Value>)
    requires c.Keys == fields.Keys
    ensures d + c == fields <==> (forall fid :: fid in d ==> fid in fields) && forall fid :: fid in fields ==> c[fid] == fields[fid]
  {
    if d + c == fields {
      forall fid | fid in d
        ensures fid in fields
      {
        assert fid in d + c;
      }
      forall fid | fid in fields
        ensures c[fid] == fields[fid]
      {
        assert (d + c)[fid] == c[fid];
      }
    }
    if (forall fid :: fid in d ==> fid in fields) && forall fid :: fid in fields ==> c[fid] == fields[fid] {
      assert (d + c).Keys == fields.Keys;
      assert d + c == fields;
    }
  }

  // ----- classes that agree on the fields they share

  /** Classes of one name are of one kind, and give their common fields the same types. */
  ghost predicate Compatible(w: Schema, r: Schema) {
    SameKinds(w, r) && forall k :: k in w && k in r ==> SameTypes(w[k].fields, r[k].fields)
  }

  ghost predicate SameTypes(fs: seq<FieldDef>, gs: seq<FieldDef>) {
    forall f, g :: f in fs && g in gs && f.fid == g.fid ==> f.info == g.info
  }

  /** Every class the reader meets in the value is known to it, and every union holds at most one field, which the reader knows. */
  ghost predicate UnionsRead(w: Schema, r: Schema, info: Info, v: Value)
    decreases v
  {
    match v
    case VList(es) => info.ListOf? ==> forall i :: 0 <= i < |es| ==> UnionsRead(w, r, info.elem, es[i])
    case VSet(es) => info.SetOf? ==> forall i :: 0 <= i < |es| ==> UnionsRead(w, r, info.elem, es[i])
    case VHash(ps) => info.MapOf? ==> forall i :: 0 <= i < |ps| ==> UnionsRead(w, r, info.key, ps[i].0) && UnionsRead(w, r, info.elem, ps[i].1)
    case VObj(k, fields) =>
      info.Obj? && k in w ==>
        && k in r
        && (r[k].isUnion ==> AtMostOne(fields) && forall fid :: fid in fields ==> Has(r[k].fields, fid))
        && forall fid :: fid in fields && Shared(w, r, k, fid) ==> UnionsRead(w, r, FieldAt(w[k].fields, fid).value.info, fields[fid])
    case _ => true
  }

  lemma SharedTypes(w: Schema, r: Schema, k: string, fid: int)
    requires Compatible(w, r) && k in w && k in r && Shared(w, r, k, fid)
    ensures FieldAt(w[k].fields, fid).value.info == FieldAt(r[k].fields, fid).value.info
  {
    hide FieldAt, SameKinds;
  }

  /** Between such classes a value fits exactly when its unions can be read. */
  lemma {:induction false} CompatibleFits(w: Schema, r: Schema, info: Info, v: Value)
    requires GoodSchema(w) && Compatible(w, r) && Sent(w, info, v)
    ensures Fits(w, r, info, info, v) <==> UnionsRead(w, r, info, v)
    decreases v, 2
  {
    hide GoodSchema, Compatible, Sent, Fits, UnionsRead;
    match info
    case Prim(t) => AtomFitsRead(w, r, t, v);
    case ListOf(e) =>
      ListKind(w, info, v);
      ListFitsRead(w, r, e, v);
    case SetOf(e) =>
      ListKind(w, info, v);
      ListFitsRead(w, r, e, v);
    case MapOf(k, e) => HashFitsRead(w, r, k, e, v);
    case Obj(k) => ObjFitsRead(w, r, k, v);
  }

  lemma AtomFitsRead(w: Schema, r: Schema, t: WireType, v: Value)
    requires Sent(w, Prim(t), v)
    ensures Fits(w, r, Prim(t), Prim(t), v) && UnionsRead(w, r, Prim(t), v)
  {
  }

  lemma {:induction false} ListFitsRead(w: Schema, r: Schema, e: Info, v: Value)
    requires v.VList? || v.VSet?
    requires GoodSchema(w) && Compatible(w, r) && Sent(w, Container(e, v), v)
    ensures Fits(w, r, Container(e, v), Container(e, v), v) <==> UnionsRead(w, r, Container(e, v), v)
    decreases v, 1
  {
    hide GoodSchema, Compatible, Sent, Fits;
    ListSent(w, e, v);
    ListFits(w, r, e, Container(e, v), v);
    forall i | 0 <= i < |v.es|
      ensures Fits(w, r, e, e, v.es[i]) <==> UnionsRead(w, r, e, v.es[i])
    {
      CompatibleFits(w, r, e, v.es[i]);
    }
  }

  lemma {:induction false} HashFitsRead(w: Schema, r: Schema, k: Info, e: Info, v: Value)
    requires GoodSchema(w) && Compatible(w, r) && Sent(w, MapOf(k, e), v)
    ensures Fits(w, r, MapOf(k, e), MapOf(k, e), v) <==> UnionsRead(w, r, MapOf(k, e), v)
    decreases v, 1
  {
    hide GoodSchema, Compatible, Sent, Fits;
    HashSent(w, k, e, v);
    HashFits(w, r, k, e, MapOf(k, e), v);
    forall i | 0 <= i < |v.ps|
      ensures Fits(w, r, k, k, v.ps[i].0) && Fits(w, r, e, e, v.ps[i].1) <==> UnionsRead(w, r, k, v.ps[i].0) && UnionsRead(w, r, e, v.ps[i].1)
    {
      PairFitsRead(w, r, k, e, v.ps[i]);
    }
  }

  lemma {:induction false} PairFitsRead(w: Schema, r: Schema, k: Info, e: Info, p: (Value, Value))
    requires GoodSchema(w) && Compatible(w, r) && Sent(w, k, p.0) && Sent(w, e, p.1)
    ensures Fits(w, r, k, k, p.0) && Fits(w, r, e, e, p.1) <==> UnionsRead(w, r, k, p.0) && UnionsRead(w, r, e, p.1)
    decreases p, 3
  {
    hide GoodSchema, Compatible, Sent, Fits, UnionsRead;
    CompatibleFits(w, r, k, p.0);
    CompatibleFits(w, r, e, p.1);
  }

  lemma {:induction false} ObjFitsRead(w: Schema, r: Schema, k: string, v: Value)
    requires GoodSchema(w) && Compatible(w, r) && Sent(w, Obj(k), v)
    ensures Fits(w, r, Obj(k), Obj(k), v) <==> UnionsRead(w, r, Obj(k), v)
    decreases v, 1
  {
    hide GoodSchema, Compatible, Sent, Fits, FieldAt, FieldFits;
    ObjSent(w, k, v);
    ObjFits(w, r, k, Obj(k), v);
    if k in r {
      forall fid | fid in v.fields && Shared(w, r, k, fid)
        ensures FieldFits(w, r, k, fid, v.fields[fid]) <==> UnionsRead(w, r, FieldAt(w[k].fields, fid).value.info, v.fields[fid])
      {
        FieldFitsRead(w, r, k, v, fid);
      }
    }
  }

  lemma {:induction false} FieldFitsRead(w: Schema, r: Schema, k: string, v: Value, fid: int)
    requires GoodSchema(w) && Compatible(w, r) && Sent(w, Obj(k), v) && v.VObj? && k in w && k in r && fid in v.fields && Shared(w, r, k, fid)
    ensures FieldFits(w, r, k, fid, v.fields[fid]) <==> UnionsRead(w, r, FieldAt(w[k].fields, fid).value.info, v.fields[fid])
    decreases v.fields[fid], 3
  {
    hide GoodSchema, Compatible, Sent, Fits, FieldAt, UnionsRead, New;
    var info := FieldAt(w[k].fields, fid).value.info;
    SharedTypes(w, r, k, fid);
    FieldSent(w, k, v, fid);
    CompatibleFits(w, r, info, v.fields[fid]);
  }

  // ----- the round trip

  /** A writable value comes back equal, with nothing else consumed, exactly when no field with a default is nil in it. */
  lemma RoundTrip(s: Schema, info: Info, v: Value, rest: seq<Token>)
    requires GoodSchema(s) && KnownInfo(s, info) && Writable(s, info, v) && Proper(s, info, v) && UnionsRead(s, s, info, v)
    ensures WriteAny(s, info, v).Ok?
    ensures ReadAny(s, TypeOf(info), info, WriteAny(s, info, v).value + rest) == Ok((v, rest)) <==> Filled(s, info, v)
  {
    hide KnownInfo, Writable, Proper, Filled, Convert, WriteAny, ReadAny, GoodSchema, UnionsRead, Fits;
    WritesIff(s, info, v);
    SelfCompatible(s);
    CompatibleFits(s, s, info, v);
    ReadsAny(s, s, info, info, v, rest);
    FilledIff(s, info, v);
  }

  lemma SelfCompatible(s: Schema)
    requires GoodSchema(s)
    ensures Setting(s, s) && Compatible(s, s)
  {
    hide KnownInfo;
    forall k, f, g | k in s && f in s[k].fields && g in s[k].fields && f.fid == g.fid
      ensures f.info == g.info
    {
      KnownField(s, k, f);
      KnownField(s, k, g);
    }
  }

  // ----- what another schema receives

  /** Equal at every field both schemas know; the reader's other fields hold their defaults, and it has no others. */
  ghost predicate Received(w: Schema, r: Schema, info: Info, v: Value, u: Value)
    decreases v
  {
    match v
    case VList(es) => if info.ListOf? then u.VList? && |u.es| == |es| && forall i :: 0 <= i < |es| ==> Received(w, r, info.elem, es[i], u.es[i]) else u == v
    case VSet(es) => if info.SetOf? then u.VSet? && |u.es| == |es| && forall i :: 0 <= i < |es| ==> Received(w, r, info.elem, es[i], u.es[i]) else u == v
    case VHash(ps) =>
      if info.MapOf? then
        && u.VHash? && |u.ps| == |ps|
        && forall i :: 0 <= i < |ps| ==> Received(w, r, info.key, ps[i].0, u.ps[i].0) && Received(w, r, info.elem, ps[i].1, u.ps[i].1)
      else u == v
    case VObj(k, fields) =>
      if k in w && k in r then
        && u.VObj? && u.klass == k
        && (forall fid :: fid in fields && Shared(w, r, k, fid) ==>
              fid in u.fields && Received(w, r, FieldAt(w[k].fields, fid).value.info, fields[fid], u.fields[fid]))
        && (forall fid :: !(fid in fields && Shared(w, r, k, fid)) ==>
              if fid in New(r, k).fields then fid in u.fields && u.fields[fid] == New(r, k).fields[fid] else fid !in u.fields)
      else u == v
    case _ => u == v
  }

  lemma {:induction false} ReceivedIff(w: Schema, r: Schema, info: Info, v: Value, u: Value)
    ensures Received(w, r, info, v, u) <==> u == Convert(w, r, info, v)
    decreases v, 2
  {
    hide Received, Convert;
    match v
    case VList(es) => ReceivedList(w, r, info, v, u);
    case VSet(es) => ReceivedList(w, r, info, v, u);
    case VHash(ps) => ReceivedHash(w, r, info, v, u);
    case VObj(k, fields) => ReceivedObj(w, r, info, v, u);
    case _ => ReceivedAtom(w, r, info, v, u);
  }

  lemma ReceivedAtom(w: Schema, r: Schema, info: Info, v: Value, u: Value)
    requires !v.VList? && !v.VSet? && !v.VHash? && !v.VObj?
    ensures Received(w, r, info, v, u) <==> u == Convert(w, r, info, v)
  {
  }

  lemma {:induction false} ReceivedList(w: Schema, r: Schema, info: Info, v: Value, u: Value)
    requires v.VList? || v.VSet?
    ensures Received(w, r, info, v, u) <==> u == Convert(w, r, info, v)
    decreases v, 1
  {
    if v.VList? && info.ListOf? && u.VList? && |u.es| == |v.es| {
      ReceivedElems(w, r, info.elem, v.es, u.es);
      SameElems(u.es, ConvertAll(w, r, info.elem, v.es));
    } else if v.VSet? && info.SetOf? && u.VSet? && |u.es| == |v.es| {
      ReceivedElems(w, r, info.elem, v.es, u.es);
      SameElems(u.es, ConvertAll(w, r, info.elem, v.es));
    }
  }

  lemma {:induction false} ReceivedHash(w: Schema, r: Schema, info: Info, v: Value, u: Value)
    requires v.VHash?
    ensures Received(w, r, info, v, u) <==> u == Convert(w, r, info, v)
    decreases v, 1
  {
    if info.MapOf? && u.VHash? && |u.ps| == |v.ps| {
      ReceivedPairs(w, r, info.key, info.elem, v.ps, u.ps);
      SameElems(u.ps, ConvertPairs(w, r, info.key, info.elem, v.ps));
    }
  }

  lemma {:induction false} ReceivedElems(w: Schema, r: Schema, e: Info, es: seq<Value>, us: seq<Value>)
    requires |us| == |es|
    ensures forall i :: 0 <= i < |es| ==> (Received(w, r, e, es[i], us[i]) <==> us[i] == Convert(w, r, e, es[i]))
    decreases es
  {
    hide Received, Convert;
    forall i | 0 <= i < |es|
      ensures Received(w, r, e, es[i], us[i]) <==> us[i] == Convert(w, r, e, es[i])
    {
      ReceivedIff(w, r, e, es[i], us[i]);
    }
  }

  lemma {:induction false} ReceivedPairs(w: Schema, r: Schema, k: Info, e: Info, ps: seq<(Value, Value)>, us: seq<(Value, Value)>)
    requires |us| == |ps|
    ensures forall i :: 0 <= i < |ps| ==>
              (Received(w, r, k, ps[i].0, us[i].0) && Received(w, r, e, ps[i].1, us[i].1) <==> us[i] == (Convert(w, r, k, ps[i].0), Convert(w, r, e, ps[i].1)))
    decreases ps
  {
    hide Received, Convert;
    forall i | 0 <= i < |ps|
      ensures Received(w, r, k, ps[i].0, us[i].0) && Received(w, r, e, ps[i].1, us[i].1) <==> us[i] == (Convert(w, r, k, ps[i].0), Convert(w, r, e, ps[i].1))
    {
      ReceivedPair(w, r, k, e, ps[i], us[i]);
    }
  }

  lemma {:induction false} ReceivedPair(w: Schema, r: Schema, k: Info, e: Info, p: (Value, Value), u: (Value, Value))
    ensures Received(w, r, k, p.0, u.0) && Received(w, r, e, p.1, u.1) <==> u == (Convert(w, r, k, p.0), Convert(w, r, e, p.1))
    decreases p, 3
  {
    hide Received, Convert;
    ReceivedIff(w, r, k, p.0, u.0);
    ReceivedIff(w, r, e, p.1, u.1);
  }

  lemma {:induction false} ReceivedObj(w: Schema, r: Schema, info: Info, v: Value, u: Value)
    requires v.VObj?
    ensures Received(w, r, info, v, u) <==> u == Convert(w, r, info, v)
    decreases v, 1
  {
    hide Received, Convert;
    var k := v.klass;
    ConvertObj(w, r, info, v);
    ReceivedUnfold(w, r, info, v, u);
    if k in w && k in r && u.VObj? && u.klass == k {
      ReceivedFields(w, r, k, v, u);
    }
  }

  lemma ConvertObj(w: Schema, r: Schema, info: Info, v: Value)
    requires v.VObj?
    ensures var k := v.klass; Convert(w, r, info, v) == if k in w && k in r then VObj(k, New(r, k).fields + Known(w, r, k, v)) else v
  {
    hide FieldAt, New, Shared;
  }

  ghost predicate ReceivedFieldsOk(w: Schema, r: Schema, k: string, v: Value, u: Value)
    requires v.VObj? && u.VObj? && k in w && k in r
  {
    && (forall fid :: fid in v.fields && Shared(w, r, k, fid) ==>
          fid in u.fields && Received(w, r, FieldAt(w[k].fields, fid).value.info, v.fields[fid], u.fields[fid]))
    && (forall fid :: !(fid in v.fields && Shared(w, r, k, fid)) ==>
          if fid in New(r, k).fields then fid in u.fields && u.fields[fid] == New(r, k).fields[fid] else fid !in u.fields)
  }

  lemma ReceivedUnfold(w: Schema, r: Schema, info: Info, v: Value, u: Value)
    requires v.VObj?
    ensures var k := v.klass;
            Received(w, r, info, v, u) <==>
              if k in w && k in r then u.VObj? && u.klass == k && ReceivedFieldsOk(w, r, k, v, u) else u == v
  {
    hide FieldAt, New, Shared;
  }

  function Known(w: Schema, r: Schema, k: string, v: Value): map<int, Value>
    requires v.VObj? && k in w && k in r
  {
    map fid | fid in v.fields && Shared(w, r, k, fid) :: Convert(w, r, FieldAt(w[k].fields, fid).value.info, v.fields[fid])
  }

  lemma {:induction false} ReceivedFields(w: Schema, r: Schema, k: string, v: Value, u: Value)
    requires v.VObj? && u.VObj? && k in w && k in r
    ensures u.fields == New(r, k).fields + Known(w, r, k, v) <==> ReceivedFieldsOk(w, r, k, v, u)
    decreases v, 0
  {
    hide FieldAt, New, Received, Convert;
    var c := Known(w, r, k, v);
    forall fid | fid in v.fields && Shared(w, r, k, fid) && fid in u.fields
      ensures Received(w, r, FieldAt(w[k].fields, fid).value.info, v.fields[fid], u.fields[fid]) <==> u.fields[fid] == c[fid]
    {
      ReceivedIff(w, r, FieldAt(w[k].fields, fid).value.info, v.fields[fid], u.fields[fid]);
    }
    OverridesIff(New(r, k).fields, c, u.fields);
  }

  lemma OverridesIff(d: map<int, Value>, c: map<int, Value>, u: map<int, Value>)
    ensures u == d + c <==>
            && (forall fid :: fid in c ==> fid in u && u[fid] == c[fid])
            && (forall fid :: fid !in c ==> if fid in d then fid in u && u[fid] == d[fid] else fid !in u)
  {
    if (forall fid :: fid in c ==> fid in u && u[fid] == c[fid]) && (forall fid :: fid !in c ==> if fid in d then fid in u && u[fid] == d[fid] else fid !in u) {
      forall fid
        ensures fid in u <==> fid in d + c
      {
        assert fid in c || fid !in c;
      }
    }
  }

  // ----- a union whose field the reader does not know

  /** The reader then stops before the stop marker, which is left in the stream. */
  lemma UnknownUnionField(w: Schema, r: Schema, k: string, v: Value, fid: int, rest: seq<Token>)
    requires GoodSchema(w) && k in w && k in r && v.VObj? && v.klass == k && r[k].isUnion && WriteAny(w, Obj(k), v).Ok?
    requires v.fields.Keys == {fid} && !v.fields[fid].VNil? && Has(w[k].fields, fid) && !Has(r[k].fields, fid)
    ensures ReadAny(r, TStruct, Obj(k), WriteAny(w, Obj(k), v).value + rest) == Ok((VObj(k, map[]), [Stop] + rest))
  {
    hide WriteFields, FieldAt, Skip, KnownInfo, WriteAny;
    var fs := w[k].fields;
    var f := FieldAt(fs, fid).value;
    StructWritten(w, k, v);
    UnionTokens(w, fs, v);
    assert fid in v.fields && Has(fs, fid);
    var x := WriteAny(w, f.info, v.fields[fid]).value;
    var ts := WriteAny(w, Obj(k), v).value + rest;
    assert ts[1..] == x + ([Stop] + rest);
    KnownField(w, k, f);
    SkipsAny(w, f.info, v.fields[fid], [Stop] + rest);
    TypeNotStop(w, f.info);
    ObjRead(r, k, ts);
    UnionSkipped(r, k, ts, [Stop] + rest);
  }

  lemma StructWritten(w: Schema, k: string, v: Value)
    requires k in w && v.VObj? && v.klass == k && WriteAny(w, Obj(k), v).Ok?
    ensures WriteFields(w, w[k].fields, v).Ok? && WriteAny(w, Obj(k), v).value == WriteFields(w, w[k].fields, v).value + [Stop]
  {
    hide WriteFields;
  }

  lemma UnionSkipped(r: Schema, k: string, ts: seq<Token>, rest: seq<Token>)
    requires k in r && AtField(ts) && FieldAt(r[k].fields, ts[0].fid).None? && Skip(ts[0].ftype, ts[1..]) == Ok(rest)
    ensures ReadUnion(r, k, ts) == Ok((VObj(k, map[]), rest))
  {
    hide Skip, FieldAt, ReadAny;
  }

  // ----- passing on what was received

  /**
   * In every object of the value that the reader keeps, each field of the reader's class either came with the value, and can
   * itself be passed on, or has a default that can be written, or is optional.
   */
  ghost predicate Relayable(w: Schema, r: Schema, info: Info, v: Value)
    decreases v
  {
    match v
    case VList(es) => info.ListOf? ==> forall i :: 0 <= i < |es| ==> Relayable(w, r, info.elem, es[i])
    case VSet(es) => info.SetOf? ==> forall i :: 0 <= i < |es| ==> Relayable(w, r, info.elem, es[i])
    case VHash(ps) => info.MapOf? ==> forall i :: 0 <= i < |ps| ==> Relayable(w, r, info.key, ps[i].0) && Relayable(w, r, info.elem, ps[i].1)
    case VObj(k, fields) =>
      info.Obj? && k in w ==>
        && k in r
        && forall f :: f in r[k].fields ==>
             if f.fid in fields && Has(w[k].fields, f.fid) then Relayable(w, r, FieldAt(w[k].fields, f.fid).value.info, fields[f.fid])
             else if f.fid in New(r, k).fields then Writable(r, f.info, New(r, k).fields[f.fid])
             else f.optional
    case _ => true
  }

  /** What was received can be written again by the reader exactly when the value sent was relayable. */
  lemma {:induction false} RelaysIff(w: Schema, r: Schema, info: Info, v: Value)
    requires GoodSchema(w) && GoodSchema(r) && Compatible(w, r) && Proper(w, info, v) && Writable(w, info, v) && KnownInfo(w, info)
    ensures Writable(r, info, Convert(w, r, info, v)) <==> Relayable(w, r, info, v)
    decreases v, 2
  {
    hide GoodSchema, Compatible, Convert, Relayable;
    match info
    case Prim(t) => RelaysAtom(w, r, t, v);
    case ListOf(e) => RelaysList(w, r, e, v);
    case SetOf(e) => RelaysList(w, r, e, v);
    case MapOf(k, e) => RelaysHash(w, r, k, e, v);
    case Obj(k) => RelaysObj(w, r, k, v);
  }

  lemma RelaysAtom(w: Schema, r: Schema, t: WireType, v: Value)
    requires Proper(w, Prim(t), v) && Writable(w, Prim(t), v) && IsAtomic(t)
    ensures Writable(r, Prim(t), Convert(w, r, Prim(t), v)) && Relayable(w, r, Prim(t), v)
  {
  }

  lemma {:induction false} RelaysList(w: Schema, r: Schema, e: Info, v: Value)
    requires v.VList? || v.VSet?
    requires GoodSchema(w) && GoodSchema(r) && Compatible(w, r) && Proper(w, Container(e, v), v) && Writable(w, Container(e, v), v) && KnownInfo(w, e)
    ensures Writable(r, Container(e, v), Convert(w, r, Container(e, v), v)) <==> Relayable(w, r, Container(e, v), v)
    decreases v, 1
  {
    hide GoodSchema, Compatible, Proper, KnownInfo, Convert, Writable, Relayable;
    ListParts(w, e, v);
    ListWritable(w, e, v);
    RelaysElems(w, r, e, v.es);
    ListFits(w, r, e, Container(e, v), v);
    var c := Convert(w, r, Container(e, v), v);
    ListWritable(r, e, c);
    ListRelayable(w, r, e, v);
    SameTruth(v.es, c.es, x => Relayable(w, r, e, x), x => Writable(r, e, x));
  }

  lemma ListWritable(s: Schema, e: Info, v: Value)
    requires v.VList? || v.VSet?
    ensures Writable(s, Container(e, v), v) <==> forall i :: 0 <= i < |v.es| ==> Writable(s, e, v.es[i])
  {
  }

  lemma ListRelayable(w: Schema, r: Schema, e: Info, v: Value)
    requires v.VList? || v.VSet?
    ensures Relayable(w, r, Container(e, v), v) <==> forall i :: 0 <= i < |v.es| ==> Relayable(w, r, e, v.es[i])
  {
  }

  /** Two sequences, one property of each. */
  lemma SameTruth<T>(a: seq<T>, b: seq<T>, p: T -> bool, q: T -> bool)
    requires |a| == |b| && forall i :: 0 <= i < |a| ==> p(a[i]) == q(b[i])
    ensures (forall i :: 0 <= i < |a| ==> p(a[i])) <==> (forall i :: 0 <= i < |b| ==> q(b[i]))
  {
  }

  lemma {:induction false} RelaysHash(w: Schema, r: Schema, k: Info, e: Info, v: Value)
    requires GoodSchema(w) && GoodSchema(r) && Compatible(w, r) && Proper(w, MapOf(k, e), v) && Writable(w, MapOf(k, e), v)
    requires KnownInfo(w, k) && KnownInfo(w, e)
    ensures Writable(r, MapOf(k, e), Convert(w, r, MapOf(k, e), v)) <==> Relayable(w, r, MapOf(k, e), v)
    decreases v, 1
  {
    hide GoodSchema, Compatible, Apart, KnownInfo, Convert, Writable, Relayable;
    HashWritable(w, k, e, v);
    RelaysPairs(w, r, k, e, v.ps);
    HashFits(w, r, k, e, MapOf(k, e), v);
    var c := Convert(w, r, MapOf(k, e), v);
    HashWritable(r, k, e, c);
    HashRelayable(w, r, k, e, v);
    SameTruth(v.ps, c.ps, (p: (Value, Value)) => Relayable(w, r, k, p.0) && Relayable(w, r, e, p.1), (p: (Value, Value)) => Writable(r, k, p.0) && Writable(r, e, p.1));
  }

  lemma HashWritable(s: Schema, k: Info, e: Info, v: Value)
    ensures Writable(s, MapOf(k, e), v) <==> v.VHash? && forall i :: 0 <= i < |v.ps| ==> Writable(s, k, v.ps[i].0) && Writable(s, e, v.ps[i].1)
  {
  }

  lemma HashRelayable(w: Schema, r: Schema, k: Info, e: Info, v: Value)
    requires v.VHash?
    ensures Relayable(w, r, MapOf(k, e), v) <==> forall i :: 0 <= i < |v.ps| ==> Relayable(w, r, k, v.ps[i].0) && Relayable(w, r, e, v.ps[i].1)
  {
  }

  lemma {:induction false} RelaysElems(w: Schema, r: Schema, e: Info, es: seq<Value>)
    requires GoodSchema(w) && GoodSchema(r) && Compatible(w, r) && KnownInfo(w, e)
    requires forall i :: 0 <= i < |es| ==> Proper(w, e, es[i]) && Writable(w, e, es[i])
    ensures forall i :: 0 <= i < |es| ==> (Writable(r, e, Convert(w, r, e, es[i])) <==> Relayable(w, r, e, es[i]))
    decreases es
  {
    hide GoodSchema, Compatible, KnownInfo, Proper, Writable, Convert, Relayable;
    forall i | 0 <= i < |es|
      ensures Writable(r, e, Convert(w, r, e, es[i])) <==> Relayable(w, r, e, es[i])
    {
      RelaysIff(w, r, e, es[i]);
    }
  }

  lemma {:induction false} RelaysPairs(w: Schema, r: Schema, k: Info, e: Info, ps: seq<(Value, Value)>)
    requires GoodSchema(w) && GoodSchema(r) && Compatible(w, r) && KnownInfo(w, k) && KnownInfo(w, e)
    requires forall i :: 0 <= i < |ps| ==> Proper(w, k, ps[i].0) && Writable(w, k, ps[i].0) && Proper(w, e, ps[i].1) && Writable(w, e, ps[i].1)
    ensures forall i :: 0 <= i < |ps| ==>
              (Writable(r, k, Convert(w, r, k, ps[i].0)) <==> Relayable(w, r, k, ps[i].0)) && (Writable(r, e, Convert(w, r, e, ps[i].1)) <==> Relayable(w, r, e, ps[i].1))
    decreases ps
  {
    hide GoodSchema, Compatible, KnownInfo, Proper, Writable, Convert, Relayable;
    forall i | 0 <= i < |ps|
      ensures Writable(r, k, Convert(w, r, k, ps[i].0)) <==> Relayable(w, r, k, ps[i].0)
      ensures Writable(r, e, Convert(w, r, e, ps[i].1)) <==> Relayable(w, r, e, ps[i].1)
    {
      RelaysPair(w, r, k, e, ps[i]);
    }
  }

  lemma {:induction false} RelaysPair(w: Schema, r: Schema, k: Info, e: Info, p: (Value, Value))
    requires GoodSchema(w) && GoodSchema(r) && Compatible(w, r) && KnownInfo(w, k) && KnownInfo(w, e)
    requires Proper(w, k, p.0) && Writable(w, k, p.0) && Proper(w, e, p.1) && Writable(w, e, p.1)
    ensures Writable(r, k, Convert(w, r, k, p.0)) <==> Relayable(w, r, k, p.0)
    ensures Writable(r, e, Convert(w, r, e, p.1)) <==> Relayable(w, r, e, p.1)
    decreases p, 3
  {
    hide GoodSchema, Compatible, KnownInfo, Proper, Writable, Convert, Relayable;
    RelaysIff(w, r, k, p.0);
    RelaysIff(w, r, e, p.1);
  }

  /** What one field of the reader's class asks for. */
  ghost predicate FieldRelayable(w: Schema, r: Schema, k: string, v: Value, f: FieldDef)
    requires v.VObj? && k in w && k in r
  {
    if f.fid in v.fields && Has(w[k].fields, f.fid) then Relayable(w, r, FieldAt(w[k].fields, f.fid).value.info, v.fields[f.fid])
    else if f.fid in New(r, k).fields then Writable(r, f.info, New(r, k).fields[f.fid])
    else f.optional
  }

  lemma RelayableObj(w: Schema, r: Schema, k: string, v: Value)
    requires v.VObj? && v.klass == k && k in w
    ensures Relayable(w, r, Obj(k), v) <==> k in r && forall f :: f in r[k].fields ==> FieldRelayable(w, r, k, v, f)
  {
    hide FieldAt, New, Writable;
  }

  ghost predicate FieldWritable(r: Schema, u: map<int, Value>, f: FieldDef) {
    (!f.optional ==> IsSet(u, f.fid)) && (IsSet(u, f.fid) ==> Writable(r, f.info, u[f.fid]))
  }

  lemma {:induction false} RelaysObj(w: Schema, r: Schema, k: string, v: Value)
    requires GoodSchema(w) && GoodSchema(r) && Compatible(w, r) && k in w && Proper(w, Obj(k), v) && Writable(w, Obj(k), v)
    ensures Writable(r, Obj(k), Convert(w, r, Obj(k), v)) <==> Relayable(w, r, Obj(k), v)
    decreases v, 1
  {
    hide GoodSchema, Compatible, Proper, Convert, FieldAt, New, Relayable, FieldRelayable;
    ConvertObj(w, r, Obj(k), v);
    RelayableObj(w, r, k, v);
    if k in r {
      var u := Convert(w, r, Obj(k), v);
      forall f | f in r[k].fields
        ensures FieldWritable(r, u.fields, f) <==> FieldRelayable(w, r, k, v, f)
      {
        RelaysField(w, r, k, v, f);
      }
    }
  }

  lemma {:induction false} RelaysField(w: Schema, r: Schema, k: string, v: Value, f: FieldDef)
    requires GoodSchema(w) && GoodSchema(r) && Compatible(w, r) && k in w && k in r && v.VObj? && v.klass == k && Proper(w, Obj(k), v)
    requires Writable(w, Obj(k), v) && f in r[k].fields
    ensures FieldWritable(r, New(r, k).fields + Known(w, r, k, v), f) <==> FieldRelayable(w, r, k, v, f)
    decreases v, 0
  {
    hide GoodSchema, Compatible, Convert, FieldAt, New, KnownInfo, Relayable;
    var fid := f.fid;
    KnownField(r, k, f);
    if fid in v.fields && Has(w[k].fields, fid) {
      var g := FieldAt(w[k].fields, fid).value;
      KnownField(w, k, g);
      SharedTypes(w, r, k, fid);
      RelaysIff(w, r, f.info, v.fields[fid]);
      NotNil(w, r, f.info, v.fields[fid]);
    } else if fid in New(r, k).fields {
      NewKnown(r, k, fid);
    }
  }

  /** Default values are not nil and belong to fields of a struct. */
  lemma {:induction false} DefaultsKnown(fs: seq<FieldDef>)
    ensures forall fid :: fid in Defaults(fs) ==> !Defaults(fs)[fid].VNil? && exists f :: f in fs && f.fid == fid
  {
    if fs != [] {
      DefaultsKnown(fs[1..]);
      forall fid | fid in Defaults(fs)
        ensures exists f :: f in fs && f.fid == fid
      {
        if fid in Defaults(fs[1..]) {
          var f :| f in fs[1..] && f.fid == fid;
          assert f in fs;
        } else {
          assert fs[0] in fs;
        }
      }
    }
  }

  lemma NewKnown(s: Schema, k: string, fid: int)
    requires GoodSchema(s) && k in s && fid in New(s, k).fields
    ensures !New(s, k).fields[fid].VNil? && Has(s[k].fields, fid) && !s[k].isUnion
    ensures FieldAt(s[k].fields, fid).value in s[k].fields && FieldAt(s[k].fields, fid).value.fid == fid
  {
    hide KnownInfo, Ascending;
    DefaultsKnown(s[k].fields);
    var f :| f in s[k].fields && f.fid == fid;
    KnownField(s, k, f);
  }

  /** Every field a reader's class demands was demanded of the writer too, or has a default. */
  ghost predicate Demands(w: Schema, r: Schema) {
    forall k, f :: k in w && k in r && f in r[k].fields && !f.optional ==>
      f.fid in New(r, k).fields || (Has(w[k].fields, f.fid) && !FieldAt(w[k].fields, f.fid).value.optional)
  }

  /** Defaults of the reader are themselves writable. */
  ghost predicate GoodDefaults(s: Schema) {
    forall k, f :: k in s && f in s[k].fields && f.fid in New(s, k).fields ==> Writable(s, f.info, New(s, k).fields[f.fid])
  }

  /** Then all that the writer can write is relayable. */
  lemma {:induction false} DemandsSuffice(w: Schema, r: Schema, info: Info, v: Value)
    requires GoodSchema(w) && Compatible(w, r) && Demands(w, r) && GoodDefaults(r) && (forall k :: k in w ==> k in r)
    requires Writable(w, info, v) && Proper(w, info, v)
    ensures Relayable(w, r, info, v)
    decreases v, 2
  {
    hide GoodSchema, Compatible, Demands, GoodDefaults;
    match info
    case Prim(t) =>
    case ListOf(e) => ElemsSuffice(w, r, e, v.es);
    case SetOf(e) => ElemsSuffice(w, r, e, v.es);
    case MapOf(k, e) => PairsSuffice(w, r, k, e, v.ps);
    case Obj(k) => FieldsSuffice(w, r, k, v);
  }

  lemma {:induction false} ElemsSuffice(w: Schema, r: Schema, e: Info, es: seq<Value>)
    requires GoodSchema(w) && Compatible(w, r) && Demands(w, r) && GoodDefaults(r) && (forall k :: k in w ==> k in r)
    requires forall i :: 0 <= i < |es| ==> Writable(w, e, es[i]) && Proper(w, e, es[i])
    ensures forall i :: 0 <= i < |es| ==> Relayable(w, r, e, es[i])
    decreases es
  {
    hide GoodSchema, Compatible, Demands, GoodDefaults, Proper, Writable, Relayable;
    forall i | 0 <= i < |es|
      ensures Relayable(w, r, e, es[i])
    {
      DemandsSuffice(w, r, e, es[i]);
    }
  }

  lemma {:induction false} PairsSuffice(w: Schema, r: Schema, k: Info, e: Info, ps: seq<(Value, Value)>)
    requires GoodSchema(w) && Compatible(w, r) && Demands(w, r) && GoodDefaults(r) && (forall c :: c in w ==> c in r)
    requires forall i :: 0 <= i < |ps| ==> Writable(w, k, ps[i].0) && Proper(w, k, ps[i].0) && Writable(w, e, ps[i].1) && Proper(w, e, ps[i].1)
    ensures forall i :: 0 <= i < |ps| ==> Relayable(w, r, k, ps[i].0) && Relayable(w, r, e, ps[i].1)
    decreases ps
  {
    hide GoodSchema, Compatible, Demands, GoodDefaults, Proper, Writable, Relayable;
    forall i | 0 <= i < |ps|
      ensures Relayable(w, r, k, ps[i].0) && Relayable(w, r, e, ps[i].1)
    {
      PairSuffices(w, r, k, e, ps[i]);
    }
  }

  lemma {:induction false} PairSuffices(w: Schema, r: Schema, k: Info, e: Info, p: (Value, Value))
    requires GoodSchema(w) && Compatible(w, r) && Demands(w, r) && GoodDefaults(r) && (forall c :: c in w ==> c in r)
    requires Writable(w, k, p.0) && Proper(w, k, p.0) && Writable(w, e, p.1) && Proper(w, e, p.1)
    ensures Relayable(w, r, k, p.0) && Relayable(w, r, e, p.1)
    decreases p, 3
  {
    hide GoodSchema, Compatible, Demands, GoodDefaults, Proper, Writable, Relayable;
    DemandsSuffice(w, r, k, p.0);
    DemandsSuffice(w, r, e, p.1);
  }

  lemma {:induction false} FieldsSuffice(w: Schema, r: Schema, k: string, v: Value)
    requires GoodSchema(w) && Compatible(w, r) && Demands(w, r) && GoodDefaults(r) && (forall c :: c in w ==> c in r)
    requires Writable(w, Obj(k), v) && Proper(w, Obj(k), v)
    ensures Relayable(w, r, Obj(k), v)
    decreases v, 1
  {
    hide GoodSchema, Compatible, Demands, GoodDefaults, Proper, FieldAt, New, Relayable, FieldRelayable;
    RelayableObj(w, r, k, v);
    forall f | f in r[k].fields
      ensures FieldRelayable(w, r, k, v, f)
    {
      FieldSuffices(w, r, k, v, f);
    }
  }

  lemma {:induction false} FieldSuffices(w: Schema, r: Schema, k: string, v: Value, f: FieldDef)
    requires GoodSchema(w) && Compatible(w, r) && Demands(w, r) && GoodDefaults(r) && (forall c :: c in w ==> c in r)
    requires Writable(w, Obj(k), v) && Proper(w, Obj(k), v) && v.VObj? && k in w && k in r && f in r[k].fields
    ensures FieldRelayable(w, r, k, v, f)
    decreases v, 0
  {
    hide GoodSchema, Compatible, FieldAt, New, Relayable;
    if f.fid in v.fields && Has(w[k].fields, f.fid) {
      var g := FieldAt(w[k].fields, f.fid).value;
      DemandsSuffice(w, r, g.info, v.fields[f.fid]);
    }
  }
}
