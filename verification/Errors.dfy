/** Which exception a failing write or read raises. */
module Errors {
  import opened Wrappers
  import opened Wire
  import opened Interop
  import opened RoundTrips
  import opened Exactness

  // ----- writing

  predicate IsInteger(t: WireType) {
    t in {TByte, TI16, TI32, TI64}
  }

  function Bits(t: WireType): (n: nat)
    ensures n > 0
  {
    match t
    case TByte => 8
    case TI16 => 16
    case TI32 => 32
    case _ => 64
  }

  function Doubled(n: nat): nat {
    if n == 0 then 1 else 2 * Doubled(n - 1)
  }

  lemma DoubledByte(n: nat)
    ensures Doubled(n + 8) == 256 * Doubled(n)
  {
    assert Doubled(n + 2) == 2 * Doubled(n + 1) == 4 * Doubled(n);
    assert Doubled(n + 4) == 2 * Doubled(n + 3) == 4 * Doubled(n + 2);
    assert Doubled(n + 6) == 2 * Doubled(n + 5) == 4 * Doubled(n + 4);
    assert Doubled(n + 8) == 2 * Doubled(n + 7) == 4 * Doubled(n + 6);
  }

  /** The ranges are those of two's complement in the width of the type. */
  lemma RangeIsSigned(t: WireType, i: int)
    requires IsInteger(t)
    ensures InRange(t, i) <==> 0 <= i + Doubled(Bits(t) - 1) < 2 * Doubled(Bits(t) - 1)
  {
    hide Doubled;
    DoubledWidths();
  }

  lemma DoubledWidths()
    ensures Doubled(7) == 128 && Doubled(15) == 0x8000 && Doubled(31) == 0x8000_0000 && Doubled(63) == 0x8000_0000_0000_0000
  {
    assert Doubled(7) == 128;
    hide Doubled;
    DoubledByte(7);
    DoubledByte(15);
    DoubledByte(23);
    DoubledByte(31);
    DoubledByte(39);
    DoubledByte(47);
    DoubledByte(55);
  }

  /** The value has the kind that an atomic type asks for; integers of any size. */
  predicate AtomTyped(t: WireType, v: Value) {
    (t == TBool ==> v.VBool?) && (t == TDouble ==> v.VDouble?) && (t == TString ==> v.VStr?) && (IsInteger(t) ==> v.VInt?)
  }

  /** Nowhere in the value, as far as it has the declared shape, is there a fault that raises e. */
  ghost predicate Free(e: Error, s: Schema, info: Info, v: Value)
    decreases v
  {
    match info
    case Prim(t) => (e == TypeMismatch ==> AtomTyped(t, v)) && (e == RangeError && IsInteger(t) && v.VInt? ==> InRange(t, v.i))
    case ListOf(el) => if v.VList? then forall i :: 0 <= i < |v.es| ==> Free(e, s, el, v.es[i]) else e != TypeMismatch
    case SetOf(el) => if v.VSet? then forall i :: 0 <= i < |v.es| ==> Free(e, s, el, v.es[i]) else e != TypeMismatch
    case MapOf(k, el) => if v.VHash? then forall i :: 0 <= i < |v.ps| ==> Free(e, s, k, v.ps[i].0) && Free(e, s, el, v.ps[i].1) else e != TypeMismatch
    case Obj(k) =>
      if !(v.VObj? && v.klass == k) then e != TypeMismatch
      else if k !in s then e != NoClass
      else
        && (e == MissingMandatory ==> MandatorySet(s[k].fields, v.fields))
        && forall f :: f in s[k].fields && IsSet(v.fields, f.fid) ==> Free(e, s, f.info, v.fields[f.fid])
  }

  const WRITE_ERRORS := {TypeMismatch, RangeError, MissingMandatory, NoClass}

  /** A write that fails raises the exception of a fault that the value has. */
  lemma {:induction false} ErrorHasCause(s: Schema, info: Info, v: Value, e: Error)
    requires WriteAny(s, info, v) == Err(e)
    ensures e in WRITE_ERRORS && !Free(e, s, info, v)
    decreases v, 2
  {
    hide WriteElems, WritePairs, WriteFields, MandatorySet;
    match info
    case Prim(t) =>
    case ListOf(el) =>
      if v.VList? {
        ElemHasCause(s, el, v.es, e);
      }
    case SetOf(el) =>
      if v.VSet? {
        ElemHasCause(s, el, v.es, e);
      }
    case MapOf(k, el) =>
      if v.VHash? {
        PairHasCause(s, k, el, v.ps, e);
      }
    case Obj(k) =>
      if v.VObj? && v.klass == k && k in s && MandatorySet(s[k].fields, v.fields) {
        FieldHasCause(s, s[k].fields, v, e);
      }
  }

  lemma {:induction false} ElemHasCause(s: Schema, el: Info, es: seq<Value>, e: Error)
    requires WriteElems(s, el, es) == Err(e)
    ensures e in WRITE_ERRORS && exists i :: 0 <= i < |es| && !Free(e, s, el, es[i])
    decreases es, 0
  {
    hide WriteAny, Free;
    if WriteAny(s, el, es[0]).Err? {
      ErrorHasCause(s, el, es[0], e);
    } else {
      ElemHasCause(s, el, es[1..], e);
      var i :| 0 <= i < |es[1..]| && !Free(e, s, el, es[1..][i]);
      assert es[i + 1] == es[1..][i];
    }
  }

  lemma {:induction false} PairHasCause(s: Schema, k: Info, el: Info, ps: seq<(Value, Value)>, e: Error)
    requires WritePairs(s, k, el, ps) == Err(e)
    ensures e in WRITE_ERRORS && exists i :: 0 <= i < |ps| && !(Free(e, s, k, ps[i].0) && Free(e, s, el, ps[i].1))
    decreases ps, 0
  {
    hide WritePair, Free;
    if WritePair(s, k, el, ps[0]).Err? {
      OneHasCause(s, k, el, ps[0], e);
    } else {
      PairHasCause(s, k, el, ps[1..], e);
      var i :| 0 <= i < |ps[1..]| && !(Free(e, s, k, ps[1..][i].0) && Free(e, s, el, ps[1..][i].1));
      assert ps[i + 1] == ps[1..][i];
    }
  }

  lemma {:induction false} OneHasCause(s: Schema, k: Info, el: Info, p: (Value, Value), e: Error)
    requires WritePair(s, k, el, p) == Err(e)
    ensures e in WRITE_ERRORS && !(Free(e, s, k, p.0) && Free(e, s, el, p.1))
    decreases p, 3
  {
    hide WriteAny, Free;
    if WriteAny(s, k, p.0).Err? {
      ErrorHasCause(s, k, p.0, e);
    } else {
      ErrorHasCause(s, el, p.1, e);
    }
  }

  lemma {:induction false} FieldHasCause(s: Schema, fs: seq<FieldDef>, v: Value, e: Error)
    requires v.VObj? && WriteFields(s, fs, v) == Err(e)
    ensures e in WRITE_ERRORS && exists f :: f in fs && IsSet(v.fields, f.fid) && !Free(e, s, f.info, v.fields[f.fid])
    decreases v, 0, |fs|
  {
    hide WriteAny, Free;
    if IsSet(v.fields, fs[0].fid) && WriteAny(s, fs[0].info, v.fields[fs[0].fid]).Err? {
      ErrorHasCause(s, fs[0].info, v.fields[fs[0].fid], e);
    } else {
      FieldHasCause(s, fs[1..], v, e);
      var f :| f in fs[1..] && IsSet(v.fields, f.fid) && !Free(e, s, f.info, v.fields[f.fid]);
      assert f in fs;
    }
  }

  /** Writing succeeds exactly on values without any fault. */
  lemma {:induction false} FaultlessIff(s: Schema, info: Info, v: Value)
    ensures Writable(s, info, v) <==> forall e :: e in WRITE_ERRORS ==> Free(e, s, info, v)
  {
    hide Writable, Free, WriteAny;
    WritesIff(s, info, v);
    if WriteAny(s, info, v).Err? {
      ErrorHasCause(s, info, v, WriteAny(s, info, v).error);
    } else {
      forall e | e in WRITE_ERRORS
        ensures Free(e, s, info, v)
      {
        WritableFree(s, info, v, e);
      }
    }
  }

  lemma {:induction false} WritableFree(s: Schema, info: Info, v: Value, e: Error)
    requires Writable(s, info, v)
    ensures Free(e, s, info, v)
    decreases v
  {
    match info
    case Prim(t) =>
    case ListOf(el) =>
      forall i | 0 <= i < |v.es|
        ensures Free(e, s, el, v.es[i])
      {
        WritableFree(s, el, v.es[i], e);
      }
    case SetOf(el) =>
      forall i | 0 <= i < |v.es|
        ensures Free(e, s, el, v.es[i])
      {
        WritableFree(s, el, v.es[i], e);
      }
    case MapOf(k, el) =>
      forall i | 0 <= i < |v.ps|
        ensures Free(e, s, k, v.ps[i].0) && Free(e, s, el, v.ps[i].1)
      {
        PairFree(s, k, el, v.ps[i], e);
      }
    case Obj(k) =>
      forall f | f in s[k].fields && IsSet(v.fields, f.fid)
        ensures Free(e, s, f.info, v.fields[f.fid])
      {
        WritableFree(s, f.info, v.fields[f.fid], e);
      }
  }

  lemma {:induction false} PairFree(s: Schema, k: Info, el: Info, p: (Value, Value), e: Error)
    requires Writable(s, k, p.0) && Writable(s, el, p.1)
    ensures Free(e, s, k, p.0) && Free(e, s, el, p.1)
    decreases p
  {
    hide Writable, Free;
    WritableFree(s, k, p.0, e);
    WritableFree(s, el, p.1, e);
  }

  /** A value with faults of one kind only raises that exception, and a value without such faults another or none. */
  lemma OnlyCause(s: Schema, info: Info, v: Value, e: Error)
    requires e in WRITE_ERRORS && forall d :: d in WRITE_ERRORS && d != e ==> Free(d, s, info, v)
    ensures if Free(e, s, info, v) then WriteAny(s, info, v).Ok? else WriteAny(s, info, v) == Err(e)
  {
    hide Writable, Free, WriteAny;
    WritesIff(s, info, v);
    FaultlessIff(s, info, v);
    if WriteAny(s, info, v).Err? {
      ErrorHasCause(s, info, v, WriteAny(s, info, v).error);
    }
  }

  /** So a value of the declared types, complete, fails exactly when an integer is out of range, and then with that exception. */
  lemma RangeFault(s: Schema, info: Info, v: Value)
    requires Free(TypeMismatch, s, info, v) && Free(MissingMandatory, s, info, v) && Free(NoClass, s, info, v)
    ensures if Free(RangeError, s, info, v) then WriteAny(s, info, v).Ok? else WriteAny(s, info, v) == Err(RangeError)
  {
    hide Free, WriteAny;
    OnlyCause(s, info, v, RangeError);
  }

  /** What is wrong with the value itself comes before what is wrong inside it. */
  lemma OutermostFirst(s: Schema, k: string, v: Value)
    ensures !(v.VObj? && v.klass == k) ==> WriteAny(s, Obj(k), v) == Err(TypeMismatch)
    ensures v.VObj? && v.klass == k && k !in s ==> WriteAny(s, Obj(k), v) == Err(NoClass)
    ensures v.VObj? && v.klass == k && k in s && !MandatorySet(s[k].fields, v.fields) ==> WriteAny(s, Obj(k), v) == Err(MissingMandatory)
  {
    hide WriteFields;
  }

  // Among several faults it is the first in the order of writing whose exception is raised.

  lemma {:induction false} FirstElement(s: Schema, el: Info, es: seq<Value>, i: nat)
    requires i < |es| && WriteAny(s, el, es[i]).Err? && forall j :: 0 <= j < i ==> WriteAny(s, el, es[j]).Ok?
    ensures WriteElems(s, el, es) == WriteAny(s, el, es[i])
  {
    hide WriteAny;
    if i > 0 {
      assert forall j :: 0 <= j < i - 1 ==> es[1..][j] == es[j + 1];
      FirstElement(s, el, es[1..], i - 1);
    }
  }

  /** A key comes before its value. */
  lemma {:induction false} FirstPair(s: Schema, k: Info, el: Info, ps: seq<(Value, Value)>, i: nat)
    requires i < |ps| && forall j :: 0 <= j < i ==> WriteAny(s, k, ps[j].0).Ok? && WriteAny(s, el, ps[j].1).Ok?
    ensures WriteAny(s, k, ps[i].0).Err? ==> WritePairs(s, k, el, ps) == WriteAny(s, k, ps[i].0)
    ensures WriteAny(s, k, ps[i].0).Ok? && WriteAny(s, el, ps[i].1).Err? ==> WritePairs(s, k, el, ps) == WriteAny(s, el, ps[i].1)
  {
    hide WriteAny;
    if i > 0 {
      assert forall j :: 0 <= j < i - 1 ==> ps[1..][j] == ps[j + 1];
      FirstPair(s, k, el, ps[1..], i - 1);
    }
  }

  /** Fields come in ascending order of their ids, those that are not set being passed over. */
  lemma {:induction false} FirstField(s: Schema, fs: seq<FieldDef>, v: Value, i: nat)
    requires v.VObj? && i < |fs| && IsSet(v.fields, fs[i].fid) && WriteAny(s, fs[i].info, v.fields[fs[i].fid]).Err?
    requires forall j :: 0 <= j < i && IsSet(v.fields, fs[j].fid) ==> WriteAny(s, fs[j].info, v.fields[fs[j].fid]).Ok?
    ensures WriteFields(s, fs, v) == WriteAny(s, fs[i].info, v.fields[fs[i].fid])
  {
    hide WriteAny, IsSet;
    if i > 0 {
      assert forall j :: 0 <= j < i - 1 ==> fs[1..][j] == fs[j + 1];
      FirstField(s, fs[1..], v, i - 1);
    }
  }

  // ----- reading

  lemma UnionRaises(r: Schema, k: string, ts: seq<Token>, c: Value, mid: seq<Token>)
    requires k in r && AtField(ts) && FieldAt(r[k].fields, ts[0].fid).Some? && AtField(mid)
    requires ReadAny(r, ts[0].ftype, FieldAt(r[k].fields, ts[0].fid).value.info, ts[1..]) == Ok((c, mid))
    ensures ReadUnion(r, k, ts) == Err(UnionException)
  {
    hide Skip, FieldAt, ReadAny;
  }

  /** A union that was written with more than one field raises when it is read, whichever field comes first. */
  lemma UnionOverfull(w: Schema, r: Schema, k: string, v: Value, rest: seq<Token>)
    requires Setting(w, r) && Sent(w, Obj(k), v) && v.VObj? && k in w && k in r && r[k].isUnion && !AtMostOne(v.fields)
    requires forall fid :: fid in v.fields ==> Shared(w, r, k, fid) && FieldFits(w, r, k, fid, v.fields[fid])
    ensures ReadAny(r, TStruct, Obj(k), WriteAny(w, Obj(k), v).value + rest) == Err(UnionException)
  {
    hide WriteAny, ReadAny, WriteFields, FieldAt, Convert, Sent, KnownInfo, Fits, ReadUnion, Setting, Skip, GoodSchema;
    SettingGood(w, r);
    ObjSent(w, k, v);
    var fs := w[k].fields;
    var end := [Stop] + rest;
    Assoc(WriteFields(w, fs, v).value, [Stop], rest);
    ObjRead(r, k, WriteAny(w, Obj(k), v).value + rest);
    SomeFieldSet(w, k, v);
    var n := FirstSet(w, fs, v, end);
    var gs := fs[n..];
    var f := gs[0];
    var ts := WriteFields(w, gs, v).value + end;
    FieldTokens(w, gs, v, end);
    KnownField(w, k, f);
    TypeKnown(w, f.info);
    FieldsWrittenOne(w, k, f, v);
    var mid := WriteFields(w, gs[1..], v).value + end;
    assert PartOf(gs, fs);
    MoreFollows(w, k, n, v, end);
    var ri := FieldAt(r[k].fields, f.fid).value.info;
    ReadsAny(w, r, f.info, ri, v.fields[f.fid], mid);
    UnionRaises(r, k, ts, Convert(w, r, f.info, v.fields[f.fid]), mid);
  }

  lemma SomeFieldSet(w: Schema, k: string, v: Value)
    requires v.VObj? && k in w && !AtMostOne(v.fields) && forall fid :: fid in v.fields ==> !v.fields[fid].VNil? && Has(w[k].fields, fid)
    ensures exists f :: f in w[k].fields && IsSet(v.fields, f.fid)
  {
    var fid :| fid in v.fields;
    assert FieldAt(w[k].fields, fid).value in w[k].fields;
  }

  /** After the first set field there is the head of another. */
  lemma MoreFollows(w: Schema, k: string, n: nat, v: Value, end: seq<Token>)
    requires GoodSchema(w) && v.VObj? && k in w && n < |w[k].fields| && !AtMostOne(v.fields)
    requires forall fid :: fid in v.fields ==> !v.fields[fid].VNil? && Has(w[k].fields, fid)
    requires forall i :: 0 <= i < n ==> !IsSet(v.fields, w[k].fields[i].fid)
    requires WriteFields(w, w[k].fields[n..][1..], v).Ok?
    ensures AtField(WriteFields(w, w[k].fields[n..][1..], v).value + end)
  {
    hide WriteFields, FieldAt, KnownInfo;
    var fs := w[k].fields;
    var gs := fs[n..][1..];
    if WriteFields(w, gs, v) == Ok([]) {
      OnlyField(w, k, n, v);
    }
    forall f | f in gs
      ensures KnownInfo(w, f.info)
    {
      var i :| 0 <= i < |gs| && gs[i] == f;
      assert fs[n + 1 + i] == f;
      KnownField(w, k, f);
    }
    HeadOrNone(w, gs, v);
  }

  /** A key or value that is announced to have no type is refused, unless there are none. */
  lemma NoTypeRefused(s: Schema, k: Info, e: Info, t: WireType, n: nat, rest: seq<Token>)
    requires n > 0
    ensures ReadAny(s, TMap, MapOf(k, e), [MapHead(TStop, t, n)] + rest) == Err(UnknownType)
    ensures ReadAny(s, TMap, MapOf(k, e), [MapHead(TStop, t, 0)] + rest) == Ok((VHash([]), rest))
  {
    assert ReadAny(s, TStop, k, rest) == Err(UnknownType);
    assert ReadPairs(s, TStop, t, k, e, n, [], rest) == Err(UnknownType);
    assert ([MapHead(TStop, t, n)] + rest)[1..] == rest && ([MapHead(TStop, t, 0)] + rest)[1..] == rest;
  }

  // ----- duplicates in what is read

  ghost predicate SameMembers(a: seq<Value>, b: seq<Value>) {
    (forall e :: e in a ==> e in b) && forall e :: e in b ==> e in a
  }

  /** A set keeps the first of equal elements, in the order in which they came. */
  lemma {:induction false} DistinctKeepsFirst(s: Schema, es: seq<Value>)
    ensures var d := Distinct(s, es);
            Apart(s, d) && SameMembers(es, d) && forall n: nat :: n <= |es| ==> Distinct(s, es[..n]) <= d
    decreases |es|
  {
    hide SameKey, ByIdentity;
    if es == [] {
      assert forall n: nat :: n <= |es| ==> es[..n] == es;
    } else {
      var m := |es| - 1;
      DistinctKeepsFirst(s, es[..m]);
      LastElement(s, es);
      forall n: nat | n <= |es|
        ensures Distinct(s, es[..n]) <= Distinct(s, es)
      {
        if n <= m {
          assert es[..m][..n] == es[..n];
        } else {
          assert es[..n] == es;
        }
      }
    }
  }

  lemma LastElement(s: Schema, es: seq<Value>)
    requires es != [] && Apart(s, Distinct(s, es[..|es| - 1])) && SameMembers(es[..|es| - 1], Distinct(s, es[..|es| - 1]))
    ensures var d := Distinct(s, es);
            Distinct(s, es[..|es| - 1]) <= d && Apart(s, d) && SameMembers(es, d)
  {
    hide ByIdentity, SameKey, Distinct;
    var e, c := es[|es| - 1], Distinct(s, es[..|es| - 1]);
    DistinctLast(s, es);
    assert es == es[..|es| - 1] + [e];
    if i :| 0 <= i < |c| && SameKey(s, c[i], e) {
      SameKeyIsSame(s, c[i], e);
    }
  }

  lemma DistinctLast(s: Schema, es: seq<Value>)
    requires es != []
    ensures var c, e := Distinct(s, es[..|es| - 1]), es[|es| - 1];
            Distinct(s, es) == if exists i :: 0 <= i < |c| && SameKey(s, c[i], e) then c else c + [e]
  {
    hide SameKey;
  }

  lemma SameKeyIsSame(s: Schema, a: Value, b: Value)
    requires SameKey(s, a, b)
    ensures a == b
  {
    hide ByIdentity;
  }

  /** A hash keeps the place of a key that comes again, with the last value. */
  lemma {:induction false} PutReplaces(s: Schema, ps: seq<(Value, Value)>, k: Value, v: Value, i: nat)
    requires i < |ps| && SameKey(s, ps[i].0, k) && Apart(s, Keys(ps))
    ensures PutPair(s, ps, k, v) == ps[i := (ps[i].0, v)]
    decreases |ps|
  {
    hide ByIdentity;
    if i > 0 {
      assert Keys(ps)[0] == ps[0].0 && Keys(ps)[i] == ps[i].0;
      assert !SameKey(s, ps[0].0, k);
      assert Keys(ps[1..]) == Keys(ps)[1..];
      PutReplaces(s, ps[1..], k, v, i - 1);
      assert [ps[0]] + ps[1..][i - 1 := (ps[i].0, v)] == ps[i := (ps[i].0, v)];
    }
  }
}
