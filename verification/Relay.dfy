/** An old value that passes through a new program comes back to an old one with everything it held. */
module RelaySoundness {
  import opened Wrappers
  import opened Wire
  import opened Interop
  import opened RoundTrips
  import opened Idl
  import opened Audits
  import opened AuditSoundness

  /** The reader's defaults are values as Ruby holds them. */
  ghost predicate ProperDefaults(r: Schema) {
    forall k, f :: k in r && f in r[k].fields && f.fid in New(r, k).fields ==> Proper(r, f.info, New(r, k).fields[f.fid])
  }

  /** Unions among the reader's defaults hold at most one field, which the writer knows. */
  ghost predicate DefaultsRead(r: Schema, w: Schema) {
    forall k, f :: k in r && f in r[k].fields && f.fid in New(r, k).fields ==> UnionsRead(r, w, f.info, New(r, k).fields[f.fid])
  }

  /** What was received is again a proper value, whose unions the writer can read. */
  ghost predicate Returns(w: Schema, r: Schema, info: Info, v: Value) {
    Proper(r, info, Convert(w, r, info, v)) && UnionsRead(r, w, info, Convert(w, r, info, v))
  }

  ghost predicate Relaying(w: Schema, r: Schema) {
    Setting(w, r) && Compatible(w, r) && Covers(w, r) && ProperDefaults(r) && DefaultsRead(r, w)
  }

  /** Sent, with every union holding at most one field. */
  ghost predicate Tidy(w: Schema, r: Schema, info: Info, v: Value) {
    Sent(w, info, v) && UnionsRead(w, r, info, v)
  }

  lemma {:induction false} ReceivedReturns(w: Schema, r: Schema, info: Info, v: Value)
    requires Relaying(w, r) && Tidy(w, r, info, v)
    ensures Returns(w, r, info, v)
    decreases v, 2
  {
    hide Relaying, Tidy, Returns;
    match info
    case Prim(t) => AtomReturns(w, r, t, v);
    case ListOf(e) =>
      TidyKind(w, r, info, v);
      ListReturns(w, r, e, v);
    case SetOf(e) =>
      TidyKind(w, r, info, v);
      ListReturns(w, r, e, v);
    case MapOf(k, e) => HashReturns(w, r, k, e, v);
    case Obj(k) => ObjReturns(w, r, k, v);
  }

  lemma AtomReturns(w: Schema, r: Schema, t: WireType, v: Value)
    requires Tidy(w, r, Prim(t), v)
    ensures Returns(w, r, Prim(t), v)
  {
  }

  lemma TidyKind(w: Schema, r: Schema, info: Info, v: Value)
    requires Tidy(w, r, info, v)
    ensures (info.ListOf? ==> v.VList?) && (info.SetOf? ==> v.VSet?)
  {
    hide WriteElems, WritePairs, WriteStruct, Proper, KnownInfo, UnionsRead;
  }

  lemma TidyFits(w: Schema, r: Schema, info: Info, v: Value)
    requires Relaying(w, r) && Tidy(w, r, info, v)
    ensures Setting(w, r) && Sendable(w, r, info, info, v)
  {
    hide Setting, Compatible, Covers, ProperDefaults, DefaultsRead, Sent, UnionsRead, Fits;
    SettingGood(w, r);
    CompatibleFits(w, r, info, v);
  }

  lemma {:induction false} ListReturns(w: Schema, r: Schema, e: Info, v: Value)
    requires v.VList? || v.VSet?
    requires Relaying(w, r) && Tidy(w, r, Container(e, v), v)
    ensures Returns(w, r, Container(e, v), v)
    decreases v, 1
  {
    hide Relaying, Setting, Sendable, Sent, Convert, Apart, Proper, UnionsRead;
    ListSent(w, e, v);
    ListTidy(w, r, e, v);
    ListFits(w, r, e, Container(e, v), v);
    var cs := ConvertAll(w, r, e, v.es);
    forall i | 0 <= i < |v.es|
      ensures Proper(r, e, cs[i]) && UnionsRead(r, w, e, cs[i]) && Setting(w, r) && Sendable(w, r, e, e, v.es[i])
    {
      ReceivedReturns(w, r, e, v.es[i]);
      TidyFits(w, r, e, v.es[i]);
    }
    if v.VSet? {
      TidyFits(w, r, Container(e, v), v);
      ApartAfter(w, r, e, e, v.es);
    }
    ListProper(r, w, e, Convert(w, r, Container(e, v), v));
  }

  lemma ListTidy(w: Schema, r: Schema, e: Info, v: Value)
    requires v.VList? || v.VSet?
    requires UnionsRead(w, r, Container(e, v), v)
    ensures forall i :: 0 <= i < |v.es| ==> UnionsRead(w, r, e, v.es[i])
  {
  }

  lemma ListProper(r: Schema, w: Schema, e: Info, c: Value)
    requires c.VList? || (c.VSet? && Apart(r, c.es))
    requires forall i :: 0 <= i < |c.es| ==> Proper(r, e, c.es[i]) && UnionsRead(r, w, e, c.es[i])
    ensures Proper(r, Container(e, c), c) && UnionsRead(r, w, Container(e, c), c)
  {
    hide Apart;
  }

  lemma {:induction false} HashReturns(w: Schema, r: Schema, k: Info, e: Info, v: Value)
    requires Relaying(w, r) && Tidy(w, r, MapOf(k, e), v)
    ensures Returns(w, r, MapOf(k, e), v)
    decreases v, 1
  {
    hide Relaying, Setting, Sendable, Sent, Convert, Apart, Proper, UnionsRead, Keys;
    HashSent(w, k, e, v);
    HashTidy(w, r, k, e, v);
    HashFits(w, r, k, e, MapOf(k, e), v);
    var cs := ConvertPairs(w, r, k, e, v.ps);
    forall i | 0 <= i < |v.ps|
      ensures Proper(r, k, cs[i].0) && UnionsRead(r, w, k, cs[i].0) && Proper(r, e, cs[i].1) && UnionsRead(r, w, e, cs[i].1)
      ensures Sendable(w, r, k, k, v.ps[i].0)
    {
      PairReturns(w, r, k, e, v.ps[i]);
    }
    TidyFits(w, r, MapOf(k, e), v);
    KeysApart(w, r, k, k, e, v.ps);
    HashProper(r, w, k, e, Convert(w, r, MapOf(k, e), v));
  }

  lemma HashTidy(w: Schema, r: Schema, k: Info, e: Info, v: Value)
    requires v.VHash? && UnionsRead(w, r, MapOf(k, e), v)
    ensures forall i :: 0 <= i < |v.ps| ==> UnionsRead(w, r, k, v.ps[i].0) && UnionsRead(w, r, e, v.ps[i].1)
  {
  }

  lemma HashProper(r: Schema, w: Schema, k: Info, e: Info, c: Value)
    requires c.VHash? && Apart(r, Keys(c.ps))
    requires forall i :: 0 <= i < |c.ps| ==> Proper(r, k, c.ps[i].0) && UnionsRead(r, w, k, c.ps[i].0)
    requires forall i :: 0 <= i < |c.ps| ==> Proper(r, e, c.ps[i].1) && UnionsRead(r, w, e, c.ps[i].1)
    ensures Proper(r, MapOf(k, e), c) && UnionsRead(r, w, MapOf(k, e), c)
  {
    hide Apart;
  }

  lemma {:induction false} PairReturns(w: Schema, r: Schema, k: Info, e: Info, p: (Value, Value))
    requires Relaying(w, r) && Tidy(w, r, k, p.0) && Tidy(w, r, e, p.1)
    ensures Returns(w, r, k, p.0) && Returns(w, r, e, p.1) && Sendable(w, r, k, k, p.0)
    decreases p, 3
  {
    hide Relaying, Tidy, Returns, Sendable;
    ReceivedReturns(w, r, k, p.0);
    ReceivedReturns(w, r, e, p.1);
    TidyFits(w, r, k, p.0);
  }

  lemma {:induction false} ObjReturns(w: Schema, r: Schema, k: string, v: Value)
    requires Relaying(w, r) && Tidy(w, r, Obj(k), v)
    ensures Returns(w, r, Obj(k), v)
    decreases v, 1
  {
    hide Relaying, Sent, Convert, FieldAt, New, UnionsRead, Proper;
    ObjSent(w, k, v);
    ObjTidy(w, r, k, v);
    RelayingHere(w, r, k);
    ConvertObj(w, r, Obj(k), v);
    var u := Convert(w, r, Obj(k), v);
    forall fid | fid in u.fields
      ensures Has(r[k].fields, fid) && !u.fields[fid].VNil?
      ensures Proper(r, FieldAt(r[k].fields, fid).value.info, u.fields[fid]) && UnionsRead(r, w, FieldAt(r[k].fields, fid).value.info, u.fields[fid])
      ensures r[k].isUnion ==> fid in v.fields && Has(w[k].fields, fid)
    {
      FieldReturns(w, r, k, v, fid);
    }
    ObjProper(r, w, k, u);
  }

  lemma ObjTidy(w: Schema, r: Schema, k: string, v: Value)
    requires v.VObj? && v.klass == k && k in w && UnionsRead(w, r, Obj(k), v)
    ensures k in r && (r[k].isUnion ==> AtMostOne(v.fields))
    ensures forall fid :: fid in v.fields && Shared(w, r, k, fid) ==> UnionsRead(w, r, FieldAt(w[k].fields, fid).value.info, v.fields[fid])
  {
    hide FieldAt;
  }

  lemma RelayingHere(w: Schema, r: Schema, k: string)
    requires Relaying(w, r) && k in w && k in r
    ensures GoodSchema(w) && GoodSchema(r) && Compatible(w, r) && w[k].isUnion == r[k].isUnion
  {
    hide GoodSchema, SameTypes, Covers, ProperDefaults, DefaultsRead;
  }

  lemma ObjProper(r: Schema, w: Schema, k: string, u: Value)
    requires u.VObj? && u.klass == k && k in r && k in w && w[k].isUnion == r[k].isUnion && (r[k].isUnion ==> AtMostOne(u.fields))
    requires forall fid :: fid in u.fields ==> !u.fields[fid].VNil? && (r[k].isUnion ==> Has(w[k].fields, fid))
    requires forall fid :: fid in u.fields ==> Has(r[k].fields, fid) && Proper(r, FieldAt(r[k].fields, fid).value.info, u.fields[fid])
    requires forall fid :: fid in u.fields ==> Has(r[k].fields, fid) && UnionsRead(r, w, FieldAt(r[k].fields, fid).value.info, u.fields[fid])
    ensures Proper(r, Obj(k), u) && UnionsRead(r, w, Obj(k), u)
  {
    hide FieldAt;
  }

  lemma {:induction false} FieldReturns(w: Schema, r: Schema, k: string, v: Value, fid: int)
    requires Relaying(w, r) && Tidy(w, r, Obj(k), v) && v.VObj? && v.klass == k && k in w && k in r
    requires fid in New(r, k).fields + Known(w, r, k, v)
    ensures var u := (New(r, k).fields + Known(w, r, k, v))[fid];
            && Has(r[k].fields, fid) && !u.VNil?
            && Proper(r, FieldAt(r[k].fields, fid).value.info, u) && UnionsRead(r, w, FieldAt(r[k].fields, fid).value.info, u)
            && (r[k].isUnion ==> fid in v.fields && Has(w[k].fields, fid))
    decreases v, 0
  {
    hide Relaying, Sent, Convert, Proper, FieldAt, New, UnionsRead;
    RelayingHere(w, r, k);
    if fid in v.fields && Shared(w, r, k, fid) {
      var info := FieldAt(w[k].fields, fid).value.info;
      ObjSent(w, k, v);
      ObjTidy(w, r, k, v);
      FieldSent(w, k, v, fid);
      SharedTypes(w, r, k, fid);
      ReceivedReturns(w, r, info, v.fields[fid]);
      NotNil(w, r, info, v.fields[fid]);
    } else {
      NewKnown(r, k, fid);
      DefaultReturns(w, r, k, FieldAt(r[k].fields, fid).value);
    }
  }

  lemma DefaultReturns(w: Schema, r: Schema, k: string, f: FieldDef)
    requires Relaying(w, r) && k in r && f in r[k].fields && f.fid in New(r, k).fields
    ensures Proper(r, f.info, New(r, k).fields[f.fid]) && UnionsRead(r, w, f.info, New(r, k).fields[f.fid])
  {
    hide Setting, Compatible, Covers, Proper, UnionsRead, New;
  }

  /** There and back: what v held comes back. */
  lemma {:induction false} KeptBack(w: Schema, r: Schema, info: Info, v: Value, u: Value, b: Value)
    requires Compatible(w, r) && Covers(w, r) && Received(w, r, info, v, u) && Received(r, w, info, u, b)
    ensures Kept(w, info, v, b)
    decreases v, 2
  {
    hide Compatible, Covers;
    match v
    case VList(es) =>
      if info.ListOf? {
        KeptBackElems(w, r, info.elem, es, u.es, b.es);
      }
    case VSet(es) =>
      if info.SetOf? {
        KeptBackElems(w, r, info.elem, es, u.es, b.es);
      }
    case VHash(ps) =>
      if info.MapOf? {
        KeptBackPairs(w, r, info.key, info.elem, ps, u.ps, b.ps);
      }
    case VObj(k, fields) => KeptBackObj(w, r, info, v, u, b);
    case _ =>
  }

  lemma {:induction false} KeptBackElems(w: Schema, r: Schema, e: Info, es: seq<Value>, us: seq<Value>, bs: seq<Value>)
    requires Compatible(w, r) && Covers(w, r) && |bs| == |us| == |es|
    requires forall i :: 0 <= i < |es| ==> Received(w, r, e, es[i], us[i]) && Received(r, w, e, us[i], bs[i])
    ensures forall i :: 0 <= i < |es| ==> Kept(w, e, es[i], bs[i])
    decreases es
  {
    hide Compatible, Covers, Received, Kept;
    forall i | 0 <= i < |es|
      ensures Kept(w, e, es[i], bs[i])
    {
      KeptBack(w, r, e, es[i], us[i], bs[i]);
    }
  }

  lemma {:induction false} KeptBackPairs(w: Schema, r: Schema, k: Info, e: Info, ps: seq<(Value, Value)>, us: seq<(Value, Value)>, bs: seq<(Value, Value)>)
    requires Compatible(w, r) && Covers(w, r) && |bs| == |us| == |ps|
    requires forall i :: 0 <= i < |ps| ==> Received(w, r, k, ps[i].0, us[i].0) && Received(r, w, k, us[i].0, bs[i].0)
    requires forall i :: 0 <= i < |ps| ==> Received(w, r, e, ps[i].1, us[i].1) && Received(r, w, e, us[i].1, bs[i].1)
    ensures forall i :: 0 <= i < |ps| ==> Kept(w, k, ps[i].0, bs[i].0) && Kept(w, e, ps[i].1, bs[i].1)
    decreases ps
  {
    hide Compatible, Covers, Received, Kept;
    forall i | 0 <= i < |ps|
      ensures Kept(w, k, ps[i].0, bs[i].0) && Kept(w, e, ps[i].1, bs[i].1)
    {
      KeptBackPair(w, r, k, e, ps[i], us[i], bs[i]);
    }
  }

  lemma {:induction false} KeptBackPair(w: Schema, r: Schema, k: Info, e: Info, p: (Value, Value), u: (Value, Value), b: (Value, Value))
    requires Compatible(w, r) && Covers(w, r) && Received(w, r, k, p.0, u.0) && Received(r, w, k, u.0, b.0)
    requires Received(w, r, e, p.1, u.1) && Received(r, w, e, u.1, b.1)
    ensures Kept(w, k, p.0, b.0) && Kept(w, e, p.1, b.1)
    decreases p, 3
  {
    hide Compatible, Covers, Received, Kept;
    KeptBack(w, r, k, p.0, u.0, b.0);
    KeptBack(w, r, e, p.1, u.1, b.1);
  }

  lemma {:induction false} KeptBackObj(w: Schema, r: Schema, info: Info, v: Value, u: Value, b: Value)
    requires Compatible(w, r) && Covers(w, r) && v.VObj? && Received(w, r, info, v, u) && Received(r, w, info, u, b)
    ensures Kept(w, info, v, b)
    decreases v, 1
  {
    hide Compatible, Received, FieldAt, New;
    var k := v.klass;
    ReceivedUnfold(w, r, info, v, u);
    if k in w {
      ReceivedUnfold(r, w, info, u, b);
      forall fid | fid in v.fields && Has(w[k].fields, fid)
        ensures fid in b.fields && Kept(w, FieldAt(w[k].fields, fid).value.info, v.fields[fid], b.fields[fid])
      {
        var f := FieldAt(w[k].fields, fid).value;
        assert Shared(w, r, k, fid) && Shared(r, w, k, fid);
        SharedTypes(w, r, k, fid);
        KeptBack(w, r, f.info, v.fields[fid], u.fields[fid], b.fields[fid]);
      }
    } else {
      AlienKept(w, r, info, v, u, b);
    }
  }

  lemma AlienKept(w: Schema, r: Schema, info: Info, v: Value, u: Value, b: Value)
    requires v.VObj? && v.klass !in w && Received(w, r, info, v, u) && Received(r, w, info, u, b)
    ensures Kept(w, info, v, b)
  {
  }

  /**
   * Old writer to new program to old reader, across a change the audit accepts and that kept the meaning of names: the new
   * program can pass on what it received exactly when the value was relayable, and then nothing of it is lost.
   */
  lemma RelayedUnharmed(m: map<string, Info>, news: seq<StructDecl>, olds: seq<StructDecl>, info: Info, v: Value, rest: seq<Token>)
    requires Audited(m, news, olds) && KnownInfo(SchemaOf(olds), info)
    requires Writable(SchemaOf(olds), info, v) && Proper(SchemaOf(olds), info, v) && UnionsRead(SchemaOf(olds), SchemaOf(olds), info, v)
    requires ProperDefaults(SchemaOf(news)) && DefaultsRead(SchemaOf(news), SchemaOf(olds))
    ensures var w, r := SchemaOf(olds), SchemaOf(news);
            var u := Convert(w, r, info, v);
            var b := Convert(r, w, info, u);
            && WriteAny(w, info, v).Ok? && ReadAny(r, TypeOf(info), info, WriteAny(w, info, v).value + rest) == Ok((u, rest))
            && (WriteAny(r, info, u).Ok? <==> Relayable(w, r, info, v))
            && (Relayable(w, r, info, v) ==> ReadAny(w, TypeOf(info), info, WriteAny(r, info, u).value + rest) == Ok((b, rest)))
            && Kept(w, info, v, b)
  {
    hide Accepted, Meant, GoodSchema, SameTypes, SameKinds, Covers, KnownInfo, Writable, Proper, Convert, WriteAny, ReadAny, Received, Kept, SchemaOf, Fits;
    hide Relayable, ProperDefaults, DefaultsRead, UnionsRead, Sent;
    var w, r := SchemaOf(olds), SchemaOf(news);
    var u := Convert(w, r, info, v);
    var b := Convert(r, w, info, u);
    NewReadsOld(m, news, olds, info, v, rest);
    AuditSound(m, news, olds);
    SettingGood(w, r);
    WritesIff(w, info, v);
    WritesIff(r, info, u);
    RelaysIff(w, r, info, v);
    ReceivedIff(r, w, info, u, b);
    KeptBack(w, r, info, v, u, b);
    if Relayable(w, r, info, v) {
      TidyOld(w, r, info, v);
      ReceivedReturns(w, r, info, v);
      OldReadsNew(m, news, olds, info, u, rest);
    }
  }

  lemma TidyOld(w: Schema, r: Schema, info: Info, v: Value)
    requires KnownInfo(w, info) && Proper(w, info, v) && WriteAny(w, info, v).Ok? && UnionsRead(w, w, info, v)
    requires Covers(w, r) && SameKinds(w, r)
    ensures Tidy(w, r, info, v)
  {
    hide KnownInfo, Proper, WriteAny, UnionsRead, Covers, SameKinds;
    CoversRead(w, r, info, v);
  }
}
