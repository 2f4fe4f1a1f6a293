/** What a failing write leaves in the stream: the tokens before the first fault, and never a complete message. */
module Partials {
  import opened Wrappers
  import opened Wire
  import opened Interop

  // ----- the tokens written, up to the first fault if there is one

  function Emitted(s: Schema, info: Info, v: Value): seq<Token>
    decreases v, 2
  {
    match info
    case Prim(t) => if WriteAtom(t, v).Ok? then WriteAtom(t, v).value else []
    case ListOf(e) => if v.VList? then [ListHead(TypeOf(e), |v.es|)] + EmittedElems(s, e, v.es) else []
    case SetOf(e) => if v.VSet? then [ListHead(TypeOf(e), |v.es|)] + EmittedElems(s, e, v.es) else []
    case MapOf(k, e) => if v.VHash? then [MapHead(TypeOf(k), TypeOf(e), |v.ps|)] + EmittedPairs(s, k, e, v.ps) else []
    case Obj(k) =>
      if !(v.VObj? && v.klass == k && k in s) then []
      else EmittedStruct(s, k, v) + (if WriteStruct(s, k, v).Ok? then [Stop] else [])
  }

  function EmittedElems(s: Schema, e: Info, es: seq<Value>): seq<Token>
    decreases es, 0
  {
    if es == [] then []
    else Emitted(s, e, es[0]) + (if WriteAny(s, e, es[0]).Ok? then EmittedElems(s, e, es[1..]) else [])
  }

  function EmittedPairs(s: Schema, k: Info, e: Info, ps: seq<(Value, Value)>): seq<Token>
    decreases ps, 0
  {
    if ps == [] then []
    else EmittedPair(s, k, e, ps[0]) + (if WritePair(s, k, e, ps[0]).Ok? then EmittedPairs(s, k, e, ps[1..]) else [])
  }

  function EmittedPair(s: Schema, k: Info, e: Info, p: (Value, Value)): seq<Token>
    decreases p, 3
  {
    Emitted(s, k, p.0) + (if WriteAny(s, k, p.0).Ok? then Emitted(s, e, p.1) else [])
  }

  function EmittedStruct(s: Schema, k: string, v: Value): seq<Token>
    requires v.VObj? && k in s
    decreases v, 1
  {
    if MandatorySet(s[k].fields, v.fields) then EmittedFields(s, s[k].fields, v) else []
  }

  function EmittedFields(s: Schema, fs: seq<FieldDef>, v: Value): seq<Token>
    requires v.VObj?
    decreases v, 0, |fs|
  {
    if fs == [] then []
    else if !IsSet(v.fields, fs[0].fid) then EmittedFields(s, fs[1..], v)
    else
      [FieldHead(TypeOf(fs[0].info), fs[0].fid)] + Emitted(s, fs[0].info, v.fields[fs[0].fid]) +
      (if WriteAny(s, fs[0].info, v.fields[fs[0].fid]).Ok? then EmittedFields(s, fs[1..], v) else [])
  }

  // ----- a write that succeeds

  lemma {:induction false} EmittedAll(s: Schema, info: Info, v: Value)
    requires WriteAny(s, info, v).Ok?
    ensures Emitted(s, info, v) == WriteAny(s, info, v).value
    decreases v, 2
  {
    hide WriteElems, WritePairs, WriteFields, EmittedElems, EmittedPairs, EmittedFields;
    match info
    case Prim(t) =>
    case ListOf(e) => EmittedAllElems(s, e, v.es);
    case SetOf(e) => EmittedAllElems(s, e, v.es);
    case MapOf(k, e) => EmittedAllPairs(s, k, e, v.ps);
    case Obj(k) => EmittedAllFields(s, s[k].fields, v);
  }

  lemma {:induction false} EmittedAllElems(s: Schema, e: Info, es: seq<Value>)
    requires WriteElems(s, e, es).Ok?
    ensures EmittedElems(s, e, es) == WriteElems(s, e, es).value
    decreases es, 0
  {
    hide WriteAny, Emitted;
    if es != [] {
      EmittedAll(s, e, es[0]);
      EmittedAllElems(s, e, es[1..]);
    }
  }

  lemma {:induction false} EmittedAllPairs(s: Schema, k: Info, e: Info, ps: seq<(Value, Value)>)
    requires WritePairs(s, k, e, ps).Ok?
    ensures EmittedPairs(s, k, e, ps) == WritePairs(s, k, e, ps).value
    decreases ps, 0
  {
    hide WritePair, EmittedPair;
    if ps != [] {
      EmittedAllPair(s, k, e, ps[0]);
      EmittedAllPairs(s, k, e, ps[1..]);
    }
  }

  lemma {:induction false} EmittedAllPair(s: Schema, k: Info, e: Info, p: (Value, Value))
    requires WritePair(s, k, e, p).Ok?
    ensures EmittedPair(s, k, e, p) == WritePair(s, k, e, p).value
    decreases p, 3
  {
    hide WriteAny, Emitted;
    EmittedAll(s, k, p.0);
    EmittedAll(s, e, p.1);
  }

  lemma {:induction false} EmittedAllFields(s: Schema, fs: seq<FieldDef>, v: Value)
    requires v.VObj? && WriteFields(s, fs, v).Ok?
    ensures EmittedFields(s, fs, v) == WriteFields(s, fs, v).value
    decreases v, 0, |fs|
  {
    hide WriteAny, Emitted;
    if fs != [] {
      if IsSet(v.fields, fs[0].fid) {
        EmittedAll(s, fs[0].info, v.fields[fs[0].fid]);
      }
      EmittedAllFields(s, fs[1..], v);
    }
  }

  // ----- a write that fails

  /** What a failing write leaves is not a value of the type: the protocol rejects it. */
  lemma {:induction false} FailedRejected(s: Schema, info: Info, v: Value)
    requires GoodSchema(s) && KnownInfo(s, info) && WriteAny(s, info, v).Err?
    ensures Skip(TypeOf(info), Emitted(s, info, v)) == Err(BadToken)
    decreases v, 2
  {
    hide GoodSchema, WriteElems, WritePairs, WriteFields, EmittedElems, EmittedPairs, EmittedFields, SkipElems, SkipPairs, SkipFields, MandatorySet;
    NothingLeft();
    match info
    case Prim(t) =>
    case ListOf(e) =>
      if v.VList? {
        FailedElems(s, e, v.es);
        Behind(ListHead(TypeOf(e), |v.es|), EmittedElems(s, e, v.es));
      }
    case SetOf(e) =>
      if v.VSet? {
        FailedElems(s, e, v.es);
        Behind(ListHead(TypeOf(e), |v.es|), EmittedElems(s, e, v.es));
      }
    case MapOf(k, e) =>
      if v.VHash? {
        FailedPairs(s, k, e, v.ps);
        Behind(MapHead(TypeOf(k), TypeOf(e), |v.ps|), EmittedPairs(s, k, e, v.ps));
      }
    case Obj(k) =>
      if v.VObj? && v.klass == k && MandatorySet(s[k].fields, v.fields) {
        ClassKnown(s, k);
        FailedFields(s, s[k].fields, v);
        assert EmittedFields(s, s[k].fields, v) + [] == EmittedFields(s, s[k].fields, v);
      }
  }

  lemma Behind(t: Token, ts: seq<Token>)
    ensures ([t] + ts)[1..] == ts
  {
  }

  lemma NothingLeft()
    ensures SkipFields([]) == Err(BadToken)
  {
  }

  lemma ClassKnown(s: Schema, k: string)
    requires GoodSchema(s) && k in s
    ensures forall f :: f in s[k].fields ==> KnownInfo(s, f.info)
  {
  }

  lemma {:induction false} FailedElems(s: Schema, e: Info, es: seq<Value>)
    requires GoodSchema(s) && KnownInfo(s, e) && WriteElems(s, e, es).Err?
    ensures SkipElems(TypeOf(e), |es|, EmittedElems(s, e, es)) == Err(BadToken)
    decreases es, 0
  {
    hide GoodSchema, KnownInfo, WriteAny, Emitted, Skip;
    var rest := EmittedElems(s, e, es[1..]);
    if WriteAny(s, e, es[0]).Err? {
      FailedRejected(s, e, es[0]);
      assert Emitted(s, e, es[0]) + [] == Emitted(s, e, es[0]);
    } else {
      EmittedAll(s, e, es[0]);
      SkipsAny(s, e, es[0], rest);
      FailedElems(s, e, es[1..]);
    }
  }

  lemma {:induction false} FailedPairs(s: Schema, k: Info, e: Info, ps: seq<(Value, Value)>)
    requires GoodSchema(s) && KnownInfo(s, k) && KnownInfo(s, e) && WritePairs(s, k, e, ps).Err?
    ensures SkipPairs(TypeOf(k), TypeOf(e), |ps|, EmittedPairs(s, k, e, ps)) == Err(BadToken)
    decreases ps, 0
  {
    hide GoodSchema, KnownInfo, WritePair, EmittedPair, Skip;
    var rest := EmittedPairs(s, k, e, ps[1..]);
    if WritePair(s, k, e, ps[0]).Err? {
      FailedPair(s, k, e, ps[0]);
      assert EmittedPair(s, k, e, ps[0]) + [] == EmittedPair(s, k, e, ps[0]);
    } else {
      EmittedAllPair(s, k, e, ps[0]);
      SkipsPair(s, k, e, ps[0], rest);
      FailedPairs(s, k, e, ps[1..]);
    }
  }

  lemma {:induction false} FailedPair(s: Schema, k: Info, e: Info, p: (Value, Value))
    requires GoodSchema(s) && KnownInfo(s, k) && KnownInfo(s, e) && WritePair(s, k, e, p).Err?
    ensures var q := Skip(TypeOf(k), EmittedPair(s, k, e, p));
            q == Err(BadToken) || (q.Ok? && Skip(TypeOf(e), q.value) == Err(BadToken))
    decreases p, 3
  {
    hide GoodSchema, KnownInfo, WriteAny, Emitted, Skip;
    if WriteAny(s, k, p.0).Err? {
      FailedRejected(s, k, p.0);
      assert Emitted(s, k, p.0) + [] == Emitted(s, k, p.0);
    } else {
      EmittedAll(s, k, p.0);
      SkipsAny(s, k, p.0, Emitted(s, e, p.1));
      FailedRejected(s, e, p.1);
    }
  }

  lemma {:induction false} FailedFields(s: Schema, fs: seq<FieldDef>, v: Value)
    requires GoodSchema(s) && v.VObj? && WriteFields(s, fs, v).Err? && forall f :: f in fs ==> KnownInfo(s, f.info)
    ensures SkipFields(EmittedFields(s, fs, v)) == Err(BadToken)
    decreases v, 0, |fs|
  {
    hide GoodSchema, KnownInfo, WriteAny, Emitted, Skip, SkipFields;
    var f := fs[0];
    if !IsSet(v.fields, f.fid) {
      FailedFields(s, fs[1..], v);
    } else {
      var head, ts := FieldHead(TypeOf(f.info), f.fid), Emitted(s, f.info, v.fields[f.fid]);
      var rest := if WriteAny(s, f.info, v.fields[f.fid]).Ok? then EmittedFields(s, fs[1..], v) else [];
      Assoc([head], ts, rest);
      Behind(head, ts + rest);
      TypeNotStop(s, f.info);
      if WriteAny(s, f.info, v.fields[f.fid]).Err? {
        FailedRejected(s, f.info, v.fields[f.fid]);
        assert ts + [] == ts;
        FieldCut([head] + (ts + rest));
      } else {
        EmittedAll(s, f.info, v.fields[f.fid]);
        SkipsAny(s, f.info, v.fields[f.fid], rest);
        FailedFields(s, fs[1..], v);
        SkipFieldsStep([head] + (ts + rest), rest);
      }
    }
  }

  lemma FieldCut(ts: seq<Token>)
    requires AtField(ts) && Skip(ts[0].ftype, ts[1..]) == Err(BadToken)
    ensures SkipFields(ts) == Err(BadToken)
  {
    hide Skip;
  }
}
