/** A written value comes back, with nothing else consumed, exactly when the reader's types fit it. */
module Exactness {
  import opened Wrappers
  import opened Wire
  import opened Interop
  import opened Pending

  // ----- what is written is one value of the announced type

  lemma {:induction false} DrainsAny(s: Schema, info: Info, v: Value, rest: seq<Token>)
    requires GoodSchema(s) && KnownInfo(s, info) && WriteAny(s, info, v).Ok?
    ensures Drain([TypeOf(info)], WriteAny(s, info, v).value + rest) == Ok(rest)
    decreases v, 2
  {
    hide WriteElems, WritePairs, WriteFields, Drain;
    var ts := WriteAny(s, info, v).value + rest;
    match info
    case Prim(t) =>
      assert ts[1..] == rest;
      DrainOne(t, ts);
      DrainNothing(rest);
    case ListOf(e) =>
      TypeKnown(s, e);
      assert ts[1..] == WriteElems(s, e, v.es).value + rest;
      DrainOne(TList, ts);
      DrainsElems(s, e, v.es, rest);
    case SetOf(e) =>
      TypeKnown(s, e);
      assert ts[1..] == WriteElems(s, e, v.es).value + rest;
      DrainOne(TSet, ts);
      DrainsElems(s, e, v.es, rest);
    case MapOf(k, e) =>
      TypeKnown(s, k);
      TypeKnown(s, e);
      assert ts[1..] == WritePairs(s, k, e, v.ps).value + rest;
      DrainOne(TMap, ts);
      DrainsPairs(s, k, e, v.ps, rest);
    case Obj(k) =>
      DrainsFields(s, s[k].fields, v, rest);
      Assoc(WriteFields(s, s[k].fields, v).value, [Stop], rest);
  }

  lemma DrainOne(t: WireType, ts: seq<Token>)
    requires ts != [] && Opened(t, ts[0]).Some?
    ensures Drain([t], ts) == Drain(Opened(t, ts[0]).value, ts[1..])
  {
    hide Opened;
    DrainStep(t, [], ts);
    assert [t] + [] == [t] && Opened(t, ts[0]).value + [] == Opened(t, ts[0]).value;
  }

  lemma TypeKnown(s: Schema, info: Info)
    requires KnownInfo(s, info)
    ensures TypeOf(info) != TStop
  {
  }

  lemma DrainNothing(ts: seq<Token>)
    ensures Drain([], ts) == Ok(ts) && forall a: seq<WireType> :: a + [] == a
  {
  }

  lemma {:induction false} DrainsElems(s: Schema, e: Info, es: seq<Value>, rest: seq<Token>)
    requires GoodSchema(s) && KnownInfo(s, e) && WriteElems(s, e, es).Ok?
    ensures Drain(Repeat(TypeOf(e), |es|), WriteElems(s, e, es).value + rest) == Ok(rest)
    decreases es, 0
  {
    hide Drain, WriteAny, Repeat, KnownInfo, TypeOf;
    var t := TypeOf(e);
    DrainNothing(rest);
    if es == [] {
      NoneMore(t, t, []);
      assert WriteElems(s, e, es).value + rest == rest;
    } else {
      var a, b := WriteAny(s, e, es[0]).value, WriteElems(s, e, es[1..]).value;
      RepeatStep(t, |es|, []);
      DrainsAny(s, e, es[0], b + rest);
      DrainsElems(s, e, es[1..], rest);
      DrainAppend([t], Repeat(t, |es| - 1) + [], a + (b + rest));
      Assoc(a, b, rest);
    }
  }

  lemma {:induction false} DrainsPairs(s: Schema, k: Info, e: Info, ps: seq<(Value, Value)>, rest: seq<Token>)
    requires GoodSchema(s) && KnownInfo(s, k) && KnownInfo(s, e) && WritePairs(s, k, e, ps).Ok?
    ensures Drain(Alternate(TypeOf(k), TypeOf(e), |ps|), WritePairs(s, k, e, ps).value + rest) == Ok(rest)
    decreases ps, 0
  {
    hide Drain, WritePair, Alternate, KnownInfo, TypeOf;
    var kt, et := TypeOf(k), TypeOf(e);
    DrainNothing(rest);
    if ps == [] {
      NoneMore(et, kt, []);
      assert WritePairs(s, k, e, ps).value + rest == rest;
    } else {
      var a, b := WritePair(s, k, e, ps[0]).value, WritePairs(s, k, e, ps[1..]).value;
      AlternateStep(kt, et, |ps|, []);
      var more := Alternate(kt, et, |ps| - 1) + [];
      assert [kt] + ([et] + more) == [kt, et] + more;
      DrainsPair(s, k, e, ps[0], b + rest);
      DrainsPairs(s, k, e, ps[1..], rest);
      DrainAppend([kt, et], more, a + (b + rest));
      Assoc(a, b, rest);
    }
  }

  lemma {:induction false} DrainsPair(s: Schema, k: Info, e: Info, p: (Value, Value), rest: seq<Token>)
    requires GoodSchema(s) && KnownInfo(s, k) && KnownInfo(s, e) && WritePair(s, k, e, p).Ok?
    ensures Drain([TypeOf(k), TypeOf(e)], WritePair(s, k, e, p).value + rest) == Ok(rest)
    decreases p, 3
  {
    hide Drain, WriteAny, KnownInfo, TypeOf;
    var x, y := WriteAny(s, k, p.0).value, WriteAny(s, e, p.1).value;
    DrainsAny(s, k, p.0, y + rest);
    DrainsAny(s, e, p.1, rest);
    DrainAppend([TypeOf(k)], [TypeOf(e)], x + (y + rest));
    assert [TypeOf(k)] + [TypeOf(e)] == [TypeOf(k), TypeOf(e)];
    Assoc(x, y, rest);
  }

  lemma {:induction false} DrainsFields(s: Schema, fs: seq<FieldDef>, v: Value, rest: seq<Token>)
    requires GoodSchema(s) && v.VObj? && WriteFields(s, fs, v).Ok? && forall f :: f in fs ==> KnownInfo(s, f.info)
    ensures Drain([TStruct], WriteFields(s, fs, v).value + ([Stop] + rest)) == Ok(rest)
    decreases v, 0, |fs|
  {
    hide WriteAny, Drain, WriteFields, GoodSchema, KnownInfo;
    var end := [Stop] + rest;
    DrainNothing(rest);
    if fs == [] {
      NoFields(s, v, end);
      assert end[1..] == rest;
      DrainStep(TStruct, [], end);
    } else if !IsSet(v.fields, fs[0].fid) {
      UnsetTokens(s, fs, v);
      DrainsFields(s, fs[1..], v, rest);
    } else {
      var f := fs[0];
      FieldTokens(s, fs, v, end);
      var b := WriteFields(s, fs[1..], v).value;
      var ts := WriteFields(s, fs, v).value + end;
      DrainsFields(s, fs[1..], v, rest);
      DrainsAny(s, f.info, v.fields[f.fid], b + end);
      TypeKnown(s, f.info);
      DrainStep(TStruct, [], ts);
      var t := TypeOf(f.info);
      assert [t, TStruct] + [] == [t] + [TStruct];
      DrainAppend([t], [TStruct], ts[1..]);
    }
  }

  // ----- a reader that stops anywhere else never catches up

  /** What a reader left unread of a value, if anything, it stays behind by, whatever comes after. */
  lemma Joined(b: seq<WireType>, d: nat, more: seq<WireType>, ts: seq<Token>, mid: seq<Token>, end: seq<Token>)
    requires Ahead([], b, d, ts, mid) && Drain(more, mid) == Ok(end)
    ensures Ahead(more, b + more, d, ts, end)
  {
    hide Drain, Sub;
    DrainAppend(b, more, ts);
    SubSkip(b, more);
  }

  /** One written value, read as any type: the reader is at its end, or behind for good. */
  lemma AtEndOrBehind(w: Schema, r: Schema, wi: Info, ri: Info, v: Value, mid: seq<Token>, more: seq<WireType>, end: seq<Token>) returns (b: seq<WireType>)
    requires GoodSchema(w) && KnownInfo(w, wi) && WriteAny(w, wi, v).Ok? && Drain(more, mid) == Ok(end)
    requires ReadAny(r, TypeOf(wi), ri, WriteAny(w, wi, v).value + mid).Ok?
    ensures var rem := ReadAny(r, TypeOf(wi), ri, WriteAny(w, wi, v).value + mid).value.1;
            rem == mid || Ahead(more, b, 1, rem, end)
  {
    hide WriteAny, ReadAny, Drain, KnownInfo, GoodSchema, TypeOf, Sub;
    var t, ts := TypeOf(wi), WriteAny(w, wi, v).value + mid;
    DrainsAny(w, wi, v, mid);
    SelfAhead([t], ts, mid);
    assert [t] + [] == [t];
    var b' := ReadKeeps(r, t, ri, [], [t], 0, ts, mid);
    var rem := ReadAny(r, t, ri, ts).value.1;
    Behind(b', 0, rem, mid);
    if b' != [] {
      OneMore(b', rem, mid);
      Joined(b', 1, more, rem, mid, end);
      b := b' + more;
    } else {
      b := [];
    }
  }

  lemma SelfAhead(a: seq<WireType>, ts: seq<Token>, end: seq<Token>)
    requires Drain(a, ts) == Ok(end)
    ensures Ahead(a, a, 0, ts, end)
  {
    SubSelf(a);
  }

  lemma OneMore(b: seq<WireType>, ts: seq<Token>, end: seq<Token>)
    requires Ahead([], b, 0, ts, end) && b != []
    ensures Ahead([], b, 1, ts, end)
  {
  }

  // ----- elements

  lemma {:induction false} ElemsPrefix(s: Schema, info: Info, n: nat, done: seq<Value>, ts: seq<Token>)
    requires ReadElems(s, info, n, done, ts).Ok?
    ensures var cs := ReadElems(s, info, n, done, ts).value.0; |cs| == |done| + n && cs[..|done|] == done
    decreases n
  {
    hide ReadAny;
    if n > 0 {
      var c := ReadAny(s, TypeOf(info), info, ts).value;
      ElemsPrefix(s, info, n - 1, done + [c.0], c.1);
    }
  }

  /** The first element was read as written, or the rest could not have been. */
  lemma {:induction false} ElemsBack(w: Schema, r: Schema, e: Info, e': Info, es: seq<Value>, done: seq<Value>, rest: seq<Token>)
    requires GoodSchema(w) && GoodSchema(r) && TypeOf(e') == TypeOf(e) && WriteElems(w, e, es).Ok? && KnownInfo(w, e) && forall i :: 0 <= i < |es| ==> Sent(w, e, es[i])
    requires ReadElems(r, e', |es|, done, WriteElems(w, e, es).value + rest) == Ok((done + ConvertAll(w, r, e, es), rest))
    ensures forall i :: 0 <= i < |es| ==> Fits(w, r, e, e', es[i])
    decreases es, 0
  {
    hide Sent, Convert, WriteAny, ReadAny, TypeOf, Fits, WriteElems, ReadElems, GoodSchema, KnownInfo, Ahead, Drain, Repeat;
    if es != [] {
      ElemsStep(w, e, es);
      var t := TypeOf(e);
      var a, b := WriteAny(w, e, es[0]).value, WriteElems(w, e, es[1..]).value;
      var mid := b + rest;
      Assoc(a, b, rest);
      ElemsFirst(r, e', |es|, done, a + mid);
      var c := ReadAny(r, t, e', a + mid).value;
      DrainsElems(w, e, es[1..], rest);
      var p := AtEndOrBehind(w, r, e, e', es[0], mid, Repeat(t, |es| - 1), rest);
      if c.1 != mid {
        NoneMore(t, t, []);
        ElemsBehind(r, e', |es| - 1, done + [c.0], p, c.1, rest);
      }
      ElemsPrefix(r, e', |es| - 1, done + [c.0], mid);
      ElemsAgree(w, r, e, es, done, c.0);
      FitsBack(w, r, e, e', es[0], mid);
      ElemsBack(w, r, e, e', es[1..], done + [c.0], rest);
      assert forall i :: 0 < i < |es| ==> es[i] == es[1..][i - 1];
    }
  }

  lemma ElemsFirst(r: Schema, e': Info, n: nat, done: seq<Value>, ts: seq<Token>)
    requires n > 0 && ReadElems(r, e', n, done, ts).Ok?
    ensures ReadAny(r, TypeOf(e'), e', ts).Ok?
    ensures var c := ReadAny(r, TypeOf(e'), e', ts).value; ReadElems(r, e', n, done, ts) == ReadElems(r, e', n - 1, done + [c.0], c.1)
  {
    hide ReadAny;
  }

  lemma ElemsBehind(r: Schema, e': Info, n: nat, done: seq<Value>, p: seq<WireType>, ts: seq<Token>, end: seq<Token>)
    requires Ahead(Repeat(TypeOf(e'), n), p, 1, ts, end) && ReadElems(r, e', n, done, ts).Ok?
    ensures ReadElems(r, e', n, done, ts).value.1 != end
  {
    hide ReadElems, Ahead, Repeat, TypeOf;
    assert Repeat(TypeOf(e'), n) + [] == Repeat(TypeOf(e'), n);
    var q := ElemsKeep(r, e', n, done, [], p, 1, ts, end);
    Behind(q, 1, ReadElems(r, e', n, done, ts).value.1, end);
  }

  lemma ElemsAgree(w: Schema, r: Schema, e: Info, es: seq<Value>, done: seq<Value>, c: Value)
    requires es != [] && (done + ConvertAll(w, r, e, es))[..|done| + 1] == done + [c]
    ensures c == Convert(w, r, e, es[0])
    ensures done + ConvertAll(w, r, e, es) == done + [c] + ConvertAll(w, r, e, es[1..])
  {
    hide Convert;
    var cs := done + ConvertAll(w, r, e, es);
    assert cs[..|done| + 1][|done|] == cs[|done|] == ConvertAll(w, r, e, es)[0];
    assert ConvertAll(w, r, e, es) == [c] + ConvertAll(w, r, e, es[1..]);
  }

  /** Sets only lose elements. */
  lemma {:induction false} DistinctSize(s: Schema, es: seq<Value>)
    ensures |Distinct(s, es)| <= |es| && (|Distinct(s, es)| == |es| ==> Distinct(s, es) == es)
    decreases |es|
  {
    hide SameKey;
    if es != [] {
      DistinctSize(s, es[..|es| - 1]);
      assert es == es[..|es| - 1] + [es[|es| - 1]];
    }
  }

  lemma ListBroken(r: Schema, t: WireType, ri: Info, e: Info, n: nat, ts: seq<Token>)
    requires (t == TList || t == TSet) && ts != [] && ts[0] == ListHead(TypeOf(e), n)
    requires ReadAny(r, t, ri, ts).Ok? && !ReadAny(r, t, ri, ts).value.0.VNil?
    ensures ElementFits(e, ri) && ReadElems(r, Element(ri).value, n, [], ts[1..]).Ok?
    ensures var q := ReadElems(r, Element(ri).value, n, [], ts[1..]).value; ReadAny(r, t, ri, ts) == Ok((Collected(r, t, q.0), q.1))
  {
    hide ReadElems, Distinct, SkipElems;
  }

  lemma {:induction false} ListBack(w: Schema, r: Schema, e: Info, ri: Info, v: Value, rest: seq<Token>)
    requires v.VList? || v.VSet?
    requires GoodSchema(w) && GoodSchema(r) && Sent(w, Container(e, v), v)
    requires ReadAny(r, TypeOf(Container(e, v)), ri, WriteAny(w, Container(e, v), v).value + rest) == Ok((Convert(w, r, Container(e, v), v), rest))
    ensures Fits(w, r, Container(e, v), ri, v)
    decreases v, 1
  {
    hide Sent, SameKey, Distinct, ReadAny, WriteAny, WriteElems, ReadElems, Convert, Apart, Fits, Element, TypeOf, GoodSchema;
    ListSent(w, e, v);
    ListFits(w, r, e, ri, v);
    ContainerType(e, v);
    var t := TypeOf(Container(e, v));
    var b := WriteElems(w, e, v.es).value;
    var ts := WriteAny(w, Container(e, v), v).value + rest;
    assert ts[1..] == b + rest;
    ListBroken(r, t, ri, e, |v.es|, ts);
    var e' := Element(ri).value;
    var cs := ReadElems(r, e', |v.es|, [], b + rest).value.0;
    ElemsPrefix(r, e', |v.es|, [], b + rest);
    DistinctSize(r, cs);
    assert cs == ConvertAll(w, r, e, v.es);
    assert [] + cs == cs;
    ElemsBack(w, r, e, e', v.es, [], rest);
  }

  // ----- pairs

  lemma {:induction false} PutGrows(s: Schema, ps: seq<(Value, Value)>, k: Value, v: Value)
    ensures |ps| <= |PutPair(s, ps, k, v)| <= |ps| + 1
    ensures |PutPair(s, ps, k, v)| == |ps| + 1 ==> PutPair(s, ps, k, v) == ps + [(k, v)]
    decreases |ps|
  {
    hide SameKey;
    if ps != [] {
      PutGrows(s, ps[1..], k, v);
    }
  }

  /** A hash that did not merge keys holds the pairs in the order in which they came. */
  lemma {:induction false} PairsPrefix(s: Schema, kt: WireType, vt: WireType, k: Info, e: Info, n: nat, done: seq<(Value, Value)>, ts: seq<Token>)
    requires ReadPairs(s, kt, vt, k, e, n, done, ts).Ok?
    ensures var h := ReadPairs(s, kt, vt, k, e, n, done, ts).value.0;
            h.VHash? && |h.ps| <= |done| + n && (|h.ps| == |done| + n ==> h.ps[..|done|] == done)
    decreases n
  {
    hide ReadAny, PutPair;
    if n > 0 {
      var q := ReadAny(s, kt, k, ts).value;
      var c := ReadAny(s, vt, e, q.1).value;
      PutGrows(s, done, q.0, c.0);
      PairsPrefix(s, kt, vt, k, e, n - 1, PutPair(s, done, q.0, c.0), c.1);
      var h := ReadPairs(s, kt, vt, k, e, n, done, ts).value.0;
      if |h.ps| == |done| + n {
        assert h.ps[..|done|] == h.ps[..|done| + 1][..|done|];
      }
    }
  }

  lemma PairsFirst(r: Schema, kt: WireType, vt: WireType, k: Info, e: Info, n: nat, done: seq<(Value, Value)>, ts: seq<Token>)
    requires n > 0 && ReadPairs(r, kt, vt, k, e, n, done, ts).Ok?
    ensures ReadAny(r, kt, k, ts).Ok? && ReadAny(r, vt, e, ReadAny(r, kt, k, ts).value.1).Ok?
    ensures var q := ReadAny(r, kt, k, ts).value;
            var c := ReadAny(r, vt, e, q.1).value;
            ReadPairs(r, kt, vt, k, e, n, done, ts) == ReadPairs(r, kt, vt, k, e, n - 1, PutPair(r, done, q.0, c.0), c.1)
  {
    hide ReadAny, PutPair;
  }

  lemma PairsBehind(r: Schema, kt: WireType, vt: WireType, k: Info, e: Info, n: nat, done: seq<(Value, Value)>, p: seq<WireType>, ts: seq<Token>, end: seq<Token>)
    requires Ahead(Alternate(kt, vt, n), p, 1, ts, end) && ReadPairs(r, kt, vt, k, e, n, done, ts).Ok?
    ensures ReadPairs(r, kt, vt, k, e, n, done, ts).value.1 != end
  {
    hide ReadPairs, Ahead, Alternate;
    assert Alternate(kt, vt, n) + [] == Alternate(kt, vt, n);
    var q := PairsKeep(r, kt, vt, k, e, n, done, [], p, 1, ts, end);
    Behind(q, 1, ReadPairs(r, kt, vt, k, e, n, done, ts).value.1, end);
  }

  /** Both halves of a pair end where they were written to end, or what follows is read from behind. */
  lemma PairAtEnd(w: Schema, r: Schema, k: Info, e: Info, k': Info, e': Info, p: (Value, Value), mid: seq<Token>, more: seq<WireType>, end: seq<Token>)
    returns (b: seq<WireType>)
    requires GoodSchema(w) && KnownInfo(w, k) && KnownInfo(w, e) && WritePair(w, k, e, p).Ok? && Drain(more, mid) == Ok(end)
    requires var q := ReadAny(r, TypeOf(k), k', WritePair(w, k, e, p).value + mid); q.Ok? && ReadAny(r, TypeOf(e), e', q.value.1).Ok?
    ensures WriteAny(w, k, p.0).Ok? && WriteAny(w, e, p.1).Ok?
    ensures WritePair(w, k, e, p).value + mid == WriteAny(w, k, p.0).value + (WriteAny(w, e, p.1).value + mid)
    ensures var q := ReadAny(r, TypeOf(k), k', WritePair(w, k, e, p).value + mid).value;
            var c := ReadAny(r, TypeOf(e), e', q.1).value;
            (q.1 == WriteAny(w, e, p.1).value + mid && c.1 == mid) || Ahead(more, b, 1, c.1, end)
  {
    hide WriteAny, ReadAny, Drain, KnownInfo, GoodSchema, TypeOf, Ahead;
    var x, y := WriteAny(w, k, p.0).value, WriteAny(w, e, p.1).value;
    Assoc(x, y, mid);
    DrainsAny(w, e, p.1, mid);
    var et := TypeOf(e);
    DrainAppend([et], more, y + mid);
    var q := ReadAny(r, TypeOf(k), k', x + (y + mid)).value;
    b := AtEndOrBehind(w, r, k, k', p.0, y + mid, [et] + more, end);
    if q.1 == y + mid {
      b := AtEndOrBehind(w, r, e, e', p.1, mid, more, end);
    } else {
      b := ReadKeeps(r, et, e', more, b, 1, q.1, end);
    }
  }

  lemma {:induction false} PairsBack(w: Schema, r: Schema, k: Info, e: Info, k': Info, e': Info, ps: seq<(Value, Value)>, done: seq<(Value, Value)>, rest: seq<Token>)
    requires GoodSchema(w) && GoodSchema(r) && WritePairs(w, k, e, ps).Ok? && KnownInfo(w, k) && KnownInfo(w, e)
    requires forall i :: 0 <= i < |ps| ==> Sent(w, k, ps[i].0) && Sent(w, e, ps[i].1)
    requires ReadPairs(r, TypeOf(k), TypeOf(e), k', e', |ps|, done, WritePairs(w, k, e, ps).value + rest)
          == Ok((VHash(done + ConvertPairs(w, r, k, e, ps)), rest))
    ensures forall i :: 0 <= i < |ps| ==> Fits(w, r, k, k', ps[i].0) && Fits(w, r, e, e', ps[i].1)
    decreases ps, 0
  {
    hide Sent, Convert, WriteAny, WritePair, ReadAny, TypeOf, Fits, WritePairs, ReadPairs, GoodSchema, KnownInfo, Ahead, Drain, Alternate, PutPair;
    if ps != [] {
      PairTokens(w, k, e, ps);
      var kt, et, n := TypeOf(k), TypeOf(e), |ps| - 1;
      var a, b := WritePair(w, k, e, ps[0]).value, WritePairs(w, k, e, ps[1..]).value;
      var mid := b + rest;
      Assoc(a, b, rest);
      PairsFirst(r, kt, et, k', e', |ps|, done, a + mid);
      var q := ReadAny(r, kt, k', a + mid).value;
      var c := ReadAny(r, et, e', q.1).value;
      var done' := PutPair(r, done, q.0, c.0);
      DrainsPairs(w, k, e, ps[1..], rest);
      assert Alternate(kt, et, n) + [] == Alternate(kt, et, n);
      var p := PairAtEnd(w, r, k, e, k', e', ps[0], mid, Alternate(kt, et, n), rest);
      if Ahead(Alternate(kt, et, n), p, 1, c.1, rest) {
        PairsBehind(r, kt, et, k', e', n, done', p, c.1, rest);
      }
      PutGrows(r, done, q.0, c.0);
      PairsPrefix(r, kt, et, k', e', n, done', mid);
      PairsAgree(w, r, k, e, ps, done, (q.0, c.0));
      PairBack(w, r, k, e, k', e', ps[0], mid);
      PairsBack(w, r, k, e, k', e', ps[1..], done', rest);
      assert forall i :: 0 < i < |ps| ==> ps[i] == ps[1..][i - 1];
    }
  }

  lemma PairsAgree(w: Schema, r: Schema, k: Info, e: Info, ps: seq<(Value, Value)>, done: seq<(Value, Value)>, c: (Value, Value))
    requires ps != [] && (done + ConvertPairs(w, r, k, e, ps))[..|done| + 1] == done + [c]
    ensures c == (Convert(w, r, k, ps[0].0), Convert(w, r, e, ps[0].1))
    ensures done + ConvertPairs(w, r, k, e, ps) == done + [c] + ConvertPairs(w, r, k, e, ps[1..])
  {
    hide Convert;
    var cs := done + ConvertPairs(w, r, k, e, ps);
    assert cs[..|done| + 1][|done|] == cs[|done|] == ConvertPairs(w, r, k, e, ps)[0];
    assert ConvertPairs(w, r, k, e, ps) == [c] + ConvertPairs(w, r, k, e, ps[1..]);
  }

  lemma {:induction false} PairBack(w: Schema, r: Schema, k: Info, e: Info, k': Info, e': Info, p: (Value, Value), mid: seq<Token>)
    requires GoodSchema(w) && GoodSchema(r) && Sent(w, k, p.0) && Sent(w, e, p.1)
    requires ReadAny(r, TypeOf(k), k', WriteAny(w, k, p.0).value + (WriteAny(w, e, p.1).value + mid)) == Ok((Convert(w, r, k, p.0), WriteAny(w, e, p.1).value + mid))
    requires ReadAny(r, TypeOf(e), e', WriteAny(w, e, p.1).value + mid) == Ok((Convert(w, r, e, p.1), mid))
    ensures Fits(w, r, k, k', p.0) && Fits(w, r, e, e', p.1)
    decreases p, 3
  {
    hide Convert, WriteAny, ReadAny, TypeOf, Fits, GoodSchema, KnownInfo, Proper;
    FitsBack(w, r, k, k', p.0, WriteAny(w, e, p.1).value + mid);
    FitsBack(w, r, e, e', p.1, mid);
  }

  lemma HashBroken(r: Schema, kt: WireType, et: WireType, ri: Info, n: nat, ts: seq<Token>)
    requires ts != [] && ts[0] == MapHead(kt, et, n) && ReadAny(r, TMap, ri, ts).Ok? && !ReadAny(r, TMap, ri, ts).value.0.VNil?
    ensures ri.MapOf?
  {
    hide ReadPairs, SkipPairs;
  }

  lemma {:induction false} HashBack(w: Schema, r: Schema, k: Info, e: Info, ri: Info, v: Value, rest: seq<Token>)
    requires GoodSchema(w) && GoodSchema(r) && Sent(w, MapOf(k, e), v)
    requires ReadAny(r, TMap, ri, WriteAny(w, MapOf(k, e), v).value + rest) == Ok((Convert(w, r, MapOf(k, e), v), rest))
    ensures Fits(w, r, MapOf(k, e), ri, v)
    decreases v, 1
  {
    hide Sent, SameKey, ReadAny, WriteAny, WritePairs, ReadPairs, Convert, Apart, Fits, TypeOf, GoodSchema;
    HashSent(w, k, e, v);
    HashFits(w, r, k, e, ri, v);
    var ts := WriteAny(w, MapOf(k, e), v).value + rest;
    assert ts[1..] == WritePairs(w, k, e, v.ps).value + rest;
    HashBroken(r, TypeOf(k), TypeOf(e), ri, |v.ps|, ts);
    HashRead(r, TypeOf(k), TypeOf(e), ri, |v.ps|, ts);
    assert [] + ConvertPairs(w, r, k, e, v.ps) == ConvertPairs(w, r, k, e, v.ps);
    PairsBack(w, r, k, e, ri.key, ri.elem, v.ps, [], rest);
  }

  lemma {:induction false} FitsBack(w: Schema, r: Schema, wi: Info, ri: Info, v: Value, rest: seq<Token>)
    requires GoodSchema(w) && GoodSchema(r) && Sent(w, wi, v)
    requires ReadAny(r, TypeOf(wi), ri, WriteAny(w, wi, v).value + rest) == Ok((Convert(w, r, wi, v), rest))
    ensures Fits(w, r, wi, ri, v)
    decreases v, 2
  {
    hide GoodSchema, Proper, Convert, Fits, KnownInfo, ReadAny, ReadElems, WriteElems, WritePairs, WriteStruct;
    match wi
    case Prim(t) => AtomFits(w, r, t, ri, v);
    case ListOf(e) => ListBack(w, r, e, ri, v, rest);
    case SetOf(e) => ListBack(w, r, e, ri, v, rest);
    case MapOf(k, e) => HashBack(w, r, k, e, ri, v, rest);
    case Obj(k) => ObjBack(w, r, k, ri, v, rest);
  }

  lemma AtomFits(w: Schema, r: Schema, t: WireType, ri: Info, v: Value)
    requires Sent(w, Prim(t), v)
    ensures Fits(w, r, Prim(t), ri, v)
  {
  }

  // ----- objects

  lemma FieldsFirst(r: Schema, k: string, fields: map<int, Value>, ts: seq<Token>)
    requires k in r && AtField(ts) && FieldAt(r[k].fields, ts[0].fid).Some? && ReadFields(r, k, fields, ts).Ok?
    ensures var g := FieldAt(r[k].fields, ts[0].fid).value;
            TypeOf(g.info) == ts[0].ftype && ReadAny(r, ts[0].ftype, g.info, ts[1..]).Ok?
  {
    hide Skip, FieldAt, ReadAny;
  }

  lemma FieldsBehind(r: Schema, k: string, fields: map<int, Value>, p: seq<WireType>, ts: seq<Token>, end: seq<Token>)
    requires k in r && Ahead([TStruct], p, 1, ts, end) && ReadFields(r, k, fields, ts).Ok?
    ensures ReadFields(r, k, fields, ts).value.1 != end
  {
    hide ReadFields, Ahead;
    assert [TStruct] + [] == [TStruct];
    var q := FieldsKeep(r, k, fields, [], p, 1, ts, end);
    Behind(q, 1, ReadFields(r, k, fields, ts).value.1, end);
  }

  /** Only a list or set of other elements is read as nil where the types agree. */
  lemma NilIsDropped(w: Schema, r: Schema, wi: Info, ri: Info, v: Value, rest: seq<Token>, rem: seq<Token>)
    requires Sent(w, wi, v) && KnownInfo(r, ri) && TypeOf(wi) == TypeOf(ri) && ReadAny(r, TypeOf(wi), ri, WriteAny(w, wi, v).value + rest) == Ok((VNil, rem))
    ensures Dropped(wi, ri)
  {
    hide Proper, ReadElems, WriteElems, ReadPairs, WritePairs, WriteFields, ReadFields, ReadUnion, New, Distinct, SkipElems, SkipPairs, MandatorySet;
    if wi.Obj? {
      ReadsObject(r, ri, WriteAny(w, wi, v).value + rest);
    } else if wi.MapOf? {
      ReadsMap(r, ri, WriteAny(w, wi, v).value + rest);
    }
  }

  lemma ReadsObject(r: Schema, ri: Info, ts: seq<Token>)
    requires ReadAny(r, TStruct, ri, ts).Ok?
    ensures ri.Obj? && ri.klass in r && ReadAny(r, TStruct, ri, ts).value.0.VObj? && ReadAny(r, TStruct, ri, ts).value.0.klass == ri.klass
    ensures ReadAny(r, TStruct, ri, ts) == if r[ri.klass].isUnion then ReadUnion(r, ri.klass, ts) else ReadFields(r, ri.klass, New(r, ri.klass).fields, ts)
  {
    hide New, ReadFields;
    FieldsObject(r, ri.klass, New(r, ri.klass).fields, ts);
  }

  lemma {:induction false} FieldsObject(r: Schema, k: string, fields: map<int, Value>, ts: seq<Token>)
    requires k in r
    ensures ReadFields(r, k, fields, ts).Ok? ==> ReadFields(r, k, fields, ts).value.0.VObj? && ReadFields(r, k, fields, ts).value.0.klass == k
    decreases |ts|
  {
    hide Skip, ReadAny, FieldAt;
    if AtField(ts) && ReadFields(r, k, fields, ts).Ok? {
      var f := FieldAt(r[k].fields, ts[0].fid);
      if f.None? {
        FieldsObject(r, k, fields, Skip(ts[0].ftype, ts[1..]).value);
      } else {
        var c := ReadAny(r, ts[0].ftype, f.value.info, ts[1..]).value;
        FieldsObject(r, k, if c.0.VNil? then fields else fields[f.value.fid := c.0], c.1);
      }
    }
  }

  lemma ReadsMap(r: Schema, ri: Info, ts: seq<Token>)
    requires ri.MapOf? && ReadAny(r, TMap, ri, ts).Ok?
    ensures !ReadAny(r, TMap, ri, ts).value.0.VNil?
  {
    hide ReadPairs;
    PairsPrefix(r, ts[0].key, ts[0].val, ri.key, ri.elem, ts[0].size, [], ts[1..]);
  }

  /** What fields of the writer's class the reader must have got, for the whole to be right. */
  ghost predicate Arrived(w: Schema, r: Schema, k: string, fs: seq<FieldDef>, v: Value, out: map<int, Value>)
    requires v.VObj? && k in w && k in r
  {
    forall fid :: fid in v.fields && Has(fs, fid) && Has(r[k].fields, fid) ==>
      Has(w[k].fields, fid) && fid in out && out[fid] == Convert(w, r, FieldAt(w[k].fields, fid).value.info, v.fields[fid])
  }

  ghost predicate AllFit(w: Schema, r: Schema, k: string, fs: seq<FieldDef>, v: Value)
    requires v.VObj? && k in w && k in r
  {
    forall fid :: fid in v.fields && Has(fs, fid) && Shared(w, r, k, fid) ==> FieldFits(w, r, k, fid, v.fields[fid])
  }

  /** Fields outside fs were not touched. */
  ghost predicate Untouched(fs: seq<FieldDef>, fields: map<int, Value>, out: map<int, Value>) {
    forall fid :: !Has(fs, fid) ==> SameAt(out, fields, fid)
  }

  lemma ArrivedStep(w: Schema, r: Schema, k: string, fs: seq<FieldDef>, v: Value, out: map<int, Value>)
    requires v.VObj? && k in w && k in r && fs != [] && Arrived(w, r, k, fs, v, out) && FieldAt(w[k].fields, fs[0].fid) == Some(fs[0])
    ensures Arrived(w, r, k, fs[1..], v, out)
    ensures var f := fs[0]; f.fid in v.fields && Has(r[k].fields, f.fid) ==> f.fid in out && out[f.fid] == Convert(w, r, f.info, v.fields[f.fid])
  {
    hide Convert, FieldAt;
    forall fid
      ensures Has(fs, fid) <==> fs[0].fid == fid || Has(fs[1..], fid)
    {
      HasStep(fs, fid);
    }
  }

  lemma AllFitStep(w: Schema, r: Schema, k: string, fs: seq<FieldDef>, v: Value)
    requires v.VObj? && k in w && k in r && fs != [] && AllFit(w, r, k, fs[1..], v)
    requires fs[0].fid in v.fields && Shared(w, r, k, fs[0].fid) ==> FieldFits(w, r, k, fs[0].fid, v.fields[fs[0].fid])
    ensures AllFit(w, r, k, fs, v)
  {
    hide FieldFits, FieldAt;
    forall fid
      ensures Has(fs, fid) <==> fs[0].fid == fid || Has(fs[1..], fid)
    {
      HasStep(fs, fid);
    }
  }

  lemma UntouchedStep(fs: seq<FieldDef>, fields: map<int, Value>, c: Value, out: map<int, Value>)
    requires fs != [] && Untouched(fs[1..], if c.VNil? then fields else fields[fs[0].fid := c], out) && !Has(fs[1..], fs[0].fid)
    ensures Untouched(fs, fields, out)
    ensures if c.VNil? then SameAt(out, fields, fs[0].fid) else fs[0].fid in out && out[fs[0].fid] == c
  {
    hide FieldAt;
    forall fid
      ensures Has(fs, fid) <==> fs[0].fid == fid || Has(fs[1..], fid)
    {
      HasStep(fs, fid);
    }
  }

  lemma {:induction false} FieldsBack(w: Schema, r: Schema, k: string, fs: seq<FieldDef>, fields: map<int, Value>, v: Value, out: map<int, Value>, rest: seq<Token>)
    requires GoodSchema(w) && GoodSchema(r) && v.VObj? && v.klass == k && k in w && k in r && !r[k].isUnion && Sent(w, Obj(k), v)
    requires WriteFields(w, fs, v).Ok? && PartOf(fs, w[k].fields) && Fresh(r, k, fs, fields)
    requires ReadFields(r, k, fields, WriteFields(w, fs, v).value + ([Stop] + rest)) == Ok((VObj(k, out), rest))
    ensures Untouched(fs, fields, out) && (Arrived(w, r, k, fs, v, out) ==> AllFit(w, r, k, fs, v))
    decreases v, 0, |fs|
  {
    hide Convert, WriteAny, ReadAny, Skip, FieldAt, ReadFields, GoodSchema, WriteFields, PartOf, Fresh, New, KnownInfo, Arrived, AllFit, Untouched, Sent, FieldFits, Shared;
    var end := [Stop] + rest;
    if fs == [] {
      NoFields(w, v, end);
      EndStep(r, k, fields, rest);
      NothingTo(w, r, k, v, fields);
    } else {
      var f := fs[0];
      FieldsStep(w, r, k, fs, v);
      NoEarlier(fs);
      FieldsWrittenOne(w, k, f, v);
      if !IsSet(v.fields, f.fid) {
        UnsetTokens(w, fs, v);
        FreshStep(r, k, fs, fields, VNil);
        FieldsBack(w, r, k, fs[1..], fields, v, out, rest);
        UntouchedStep(fs, fields, VNil, out);
      } else {
        FieldTokens(w, fs, v, end);
        var b := WriteFields(w, fs[1..], v).value;
        var ts := WriteFields(w, fs, v).value + end;
        TypeKnown(w, f.info);
        if FieldAt(r[k].fields, f.fid).None? {
          SkipsAny(w, f.info, v.fields[f.fid], b + end);
          SkipStep(r, k, fields, ts, b + end);
          FreshStep(r, k, fs, fields, VNil);
          FieldsBack(w, r, k, fs[1..], fields, v, out, rest);
          UntouchedStep(fs, fields, VNil, out);
          NotShared(w, r, k, f.fid);
        } else {
          FieldsFirst(r, k, fields, ts);
          var ri := FieldAt(r[k].fields, f.fid).value.info;
          var c := ReadAny(r, TypeOf(f.info), ri, ts[1..]).value;
          FieldStep(r, k, fields, ts, c.0, c.1);
          var fields' := if c.0.VNil? then fields else fields[f.fid := c.0];
          RestDrains(w, k, fs, v, rest);
          var p := AtEndOrBehind(w, r, f.info, ri, v.fields[f.fid], b + end, [TStruct], rest);
          if c.1 != b + end {
            FieldsBehind(r, k, fields', p, c.1, rest);
          }
          FreshStep(r, k, fs, fields, c.0);
          FieldsBack(w, r, k, fs[1..], fields', v, out, rest);
          UntouchedStep(fs, fields, c.0, out);
          if Arrived(w, r, k, fs, v, out) {
            ArrivedStep(w, r, k, fs, v, out);
            FieldBack(w, r, k, f, fields, v, c.0, b + end);
          }
        }
      }
      if Arrived(w, r, k, fs, v, out) {
        ArrivedStep(w, r, k, fs, v, out);
        AllFitStep(w, r, k, fs, v);
      }
    }
  }

  lemma NothingTo(w: Schema, r: Schema, k: string, v: Value, fields: map<int, Value>)
    requires v.VObj? && k in w && k in r
    ensures AllFit(w, r, k, [], v) && Untouched([], fields, fields)
  {
  }

  lemma NotShared(w: Schema, r: Schema, k: string, fid: int)
    requires k in w && k in r && FieldAt(r[k].fields, fid).None?
    ensures !Shared(w, r, k, fid)
  {
  }

  lemma FieldsWrittenOne(w: Schema, k: string, f: FieldDef, v: Value)
    requires GoodSchema(w) && v.VObj? && v.klass == k && k in w && Sent(w, Obj(k), v) && FieldAt(w[k].fields, f.fid) == Some(f)
    ensures f.fid in v.fields ==> IsSet(v.fields, f.fid) && Sent(w, f.info, v.fields[f.fid])
  {
    hide FieldAt, WriteFields, Proper, KnownInfo;
    ObjSent(w, k, v);
    if f.fid in v.fields {
      FieldSent(w, k, v, f.fid);
    }
  }

  lemma RestDrains(w: Schema, k: string, fs: seq<FieldDef>, v: Value, rest: seq<Token>)
    requires GoodSchema(w) && v.VObj? && k in w && fs != [] && PartOf(fs, w[k].fields) && WriteFields(w, fs[1..], v).Ok?
    ensures Drain([TStruct], WriteFields(w, fs[1..], v).value + ([Stop] + rest)) == Ok(rest)
  {
    hide WriteFields, Drain, KnownInfo;
    forall f | f in fs[1..]
      ensures KnownInfo(w, f.info)
    {
      PartMember(w[k].fields, fs, f);
      KnownField(w, k, f);
    }
    DrainsFields(w, fs[1..], v, rest);
  }

  lemma PartMember(all: seq<FieldDef>, fs: seq<FieldDef>, f: FieldDef)
    requires PartOf(fs, all) && fs != [] && f in fs[1..]
    ensures f in all
  {
    var n: nat :| n <= |all| && fs == all[n..];
    assert f in fs;
    assert forall g :: g in all[n..] ==> g in all;
  }

  /** A field that arrived fits, or was replaced by its default. */
  lemma {:induction false} FieldBack(w: Schema, r: Schema, k: string, f: FieldDef, fields: map<int, Value>, v: Value, c: Value, mid: seq<Token>)
    requires GoodSchema(w) && GoodSchema(r) && v.VObj? && k in w && k in r && !r[k].isUnion && f.fid in v.fields && Sent(w, f.info, v.fields[f.fid])
    requires FieldAt(w[k].fields, f.fid) == Some(f) && FieldAt(r[k].fields, f.fid).Some? && SameAt(fields, New(r, k).fields, f.fid)
    requires var ri := FieldAt(r[k].fields, f.fid).value.info;
             TypeOf(ri) == TypeOf(f.info) && ReadAny(r, TypeOf(f.info), ri, WriteAny(w, f.info, v.fields[f.fid]).value + mid) == Ok((c, mid))
    requires var u := Convert(w, r, f.info, v.fields[f.fid]); if c.VNil? then f.fid in fields && fields[f.fid] == u else c == u
    ensures Shared(w, r, k, f.fid) && FieldFits(w, r, k, f.fid, v.fields[f.fid])
    decreases v.fields[f.fid], 3
  {
    hide Convert, WriteAny, ReadAny, Sent, FieldAt, New, GoodSchema, Fits, Dropped, KnownInfo;
    var g := FieldAt(r[k].fields, f.fid).value;
    var ri := g.info;
    if c.VNil? {
      KnownField(r, k, g);
      NilIsDropped(w, r, f.info, ri, v.fields[f.fid], mid, mid);
    } else {
      FitsBack(w, r, f.info, ri, v.fields[f.fid], mid);
    }
  }

  lemma {:induction false} ObjBack(w: Schema, r: Schema, k: string, ri: Info, v: Value, rest: seq<Token>)
    requires GoodSchema(w) && GoodSchema(r) && Sent(w, Obj(k), v)
    requires ReadAny(r, TStruct, ri, WriteAny(w, Obj(k), v).value + rest) == Ok((Convert(w, r, Obj(k), v), rest))
    ensures Fits(w, r, Obj(k), ri, v)
    decreases v, 1
  {
    hide Sent, ReadAny, WriteAny, ReadUnion, ReadFields, WriteFields, Convert, New, Fits, FieldFits, Has, GoodSchema, FieldAt;
    ObjSent(w, k, v);
    ReadsObject(r, ri, WriteAny(w, Obj(k), v).value + rest);
    ConvertKlass(w, r, k, v);
    ObjFits(w, r, k, ri, v);
    var fs := w[k].fields;
    Assoc(WriteFields(w, fs, v).value, [Stop], rest);
    if r[k].isUnion {
      UnionBack(w, r, k, v, rest);
    } else {
      var out := Convert(w, r, Obj(k), v).fields;
      assert PartOf(fs, fs) by {
        assert fs == fs[0..];
      }
      FreshStart(r, k, fs);
      FieldsBack(w, r, k, fs, New(r, k).fields, v, out, rest);
      ArrivedAll(w, r, k, v);
    }
  }

  lemma ConvertKlass(w: Schema, r: Schema, k: string, v: Value)
    requires v.VObj? && v.klass == k
    ensures var c := Convert(w, r, Obj(k), v); c.VObj? && c.klass == k
  {
    hide FieldAt;
  }

  lemma ArrivedAll(w: Schema, r: Schema, k: string, v: Value)
    requires v.VObj? && v.klass == k && k in w && k in r
    ensures Arrived(w, r, k, w[k].fields, v, Convert(w, r, Obj(k), v).fields)
  {
    hide FieldAt, New;
  }

  // ----- unions

  lemma UnionFirst(r: Schema, k: string, ts: seq<Token>)
    requires k in r && AtField(ts) && ReadUnion(r, k, ts).Ok?
    ensures var f := FieldAt(r[k].fields, ts[0].fid);
            if f.None? then Skip(ts[0].ftype, ts[1..]).Ok? && ReadUnion(r, k, ts).value.1 == Skip(ts[0].ftype, ts[1..]).value
            else
              && ReadAny(r, ts[0].ftype, f.value.info, ts[1..]).Ok?
              && var c := ReadAny(r, ts[0].ftype, f.value.info, ts[1..]).value;
                 AtStop(c.1) && ReadUnion(r, k, ts).value == (VObj(k, if c.0.VNil? then map[] else map[f.value.fid := c.0]), c.1[1..])
  {
    hide Skip, FieldAt, ReadAny;
  }

  lemma StopBehind(p: seq<WireType>, ts: seq<Token>, end: seq<Token>)
    requires Ahead([TStruct], p, 1, ts, end) && AtStop(ts)
    ensures ts[1..] != end
  {
    hide Ahead;
    assert [TStruct] + [] == [TStruct];
    NoneMore(TStruct, TStruct, []);
    var q := TakeToken(TStruct, [], p, 1, ts, end);
    Behind(q, 1, ts[1..], end);
  }

  /** The first field that is set, among those written. */
  lemma {:induction false} FirstSet(w: Schema, fs: seq<FieldDef>, v: Value, end: seq<Token>) returns (n: nat)
    requires v.VObj? && WriteFields(w, fs, v).Ok? && exists f :: f in fs && IsSet(v.fields, f.fid)
    ensures n < |fs| && IsSet(v.fields, fs[n].fid) && WriteFields(w, fs, v) == WriteFields(w, fs[n..], v)
    ensures forall i :: 0 <= i < n ==> !IsSet(v.fields, fs[i].fid)
    decreases |fs|
  {
    hide WriteFields;
    if IsSet(v.fields, fs[0].fid) {
      n := 0;
      assert fs[0..] == fs;
    } else {
      UnsetTokens(w, fs, v);
      var m := FirstSet(w, fs[1..], v, end);
      n := m + 1;
      assert fs[1..][m..] == fs[n..];
    }
  }

  /** Fields are written one after the other, so an object that wrote nothing after its first set field has no other. */
  lemma {:induction false} NoneSet(w: Schema, fs: seq<FieldDef>, v: Value)
    requires v.VObj? && WriteFields(w, fs, v) == Ok([])
    ensures forall f :: f in fs ==> !IsSet(v.fields, f.fid)
    decreases |fs|
  {
    hide WriteAny;
    if fs != [] {
      if !IsSet(v.fields, fs[0].fid) {
        NoneSet(w, fs[1..], v);
      }
      assert forall f :: f in fs ==> f == fs[0] || f in fs[1..];
    }
  }

  /** What follows a set field: nothing, or the head of another field. */
  lemma {:induction false} HeadOrNone(w: Schema, fs: seq<FieldDef>, v: Value)
    requires v.VObj? && WriteFields(w, fs, v).Ok? && WriteFields(w, fs, v).value != [] && forall f :: f in fs ==> KnownInfo(w, f.info)
    ensures AtField(WriteFields(w, fs, v).value)
    decreases |fs|
  {
    hide WriteAny, KnownInfo;
    if fs != [] {
      TypeKnown(w, fs[0].info);
      if !IsSet(v.fields, fs[0].fid) {
        HeadOrNone(w, fs[1..], v);
      }
    }
  }

  lemma {:induction false} UnionBack(w: Schema, r: Schema, k: string, v: Value, rest: seq<Token>)
    requires GoodSchema(w) && GoodSchema(r) && Sent(w, Obj(k), v) && v.VObj? && v.klass == k && k in w && k in r && r[k].isUnion && WriteFields(w, w[k].fields, v).Ok?
    requires ReadUnion(r, k, WriteFields(w, w[k].fields, v).value + ([Stop] + rest)) == Ok((Convert(w, r, Obj(k), v), rest))
    ensures AtMostOne(v.fields) && (forall fid :: fid in v.fields ==> Has(r[k].fields, fid))
    ensures forall fid :: fid in v.fields && Shared(w, r, k, fid) ==> FieldFits(w, r, k, fid, v.fields[fid])
    decreases v, 0
  {
    hide WriteAny, ReadAny, WriteFields, FieldAt, Convert, Sent, KnownInfo, Fits, ReadUnion, GoodSchema, Skip, Ahead, Drain;
    var fs := w[k].fields;
    var end := [Stop] + rest;
    ObjSent(w, k, v);
    if exists f :: f in fs && IsSet(v.fields, f.fid) {
      var n := FirstSet(w, fs, v, end);
      var gs := fs[n..];
      var f := gs[0];
      var ts := WriteFields(w, gs, v).value + end;
      FieldTokens(w, gs, v, end);
      KnownField(w, k, f);
      TypeKnown(w, f.info);
      FieldsWrittenOne(w, k, f, v);
      var x, b := WriteAny(w, f.info, v.fields[f.fid]).value, WriteFields(w, gs[1..], v).value;
      UnionFirst(r, k, ts);
      var mid := b + end;
      if FieldAt(r[k].fields, f.fid).None? {
        SkipsAny(w, f.info, v.fields[f.fid], mid);
        assert false;
      }
      var ri := FieldAt(r[k].fields, f.fid).value.info;
      var c := ReadAny(r, TypeOf(f.info), ri, ts[1..]).value;
      assert PartOf(gs, fs);
      RestDrains(w, k, gs, v, rest);
      var p := AtEndOrBehind(w, r, f.info, ri, v.fields[f.fid], mid, [TStruct], rest);
      if c.1 != mid {
        StopBehind(p, c.1, rest);
      }
      OnlyOne(w, k, gs, v, rest);
      OnlyField(w, k, n, v);
      UnionArrived(w, r, k, f, v, c.0);
      FitsBack(w, r, f.info, ri, v.fields[f.fid], mid);
    } else {
      NoFieldSet(w, k, v);
    }
  }

  lemma OnlyOne(w: Schema, k: string, gs: seq<FieldDef>, v: Value, rest: seq<Token>)
    requires GoodSchema(w) && v.VObj? && k in w && gs != [] && PartOf(gs, w[k].fields) && WriteFields(w, gs[1..], v).Ok?
    requires AtStop(WriteFields(w, gs[1..], v).value + ([Stop] + rest))
    ensures WriteFields(w, gs[1..], v) == Ok([])
  {
    hide WriteFields, KnownInfo;
    forall f | f in gs[1..]
      ensures KnownInfo(w, f.info)
    {
      PartMember(w[k].fields, gs, f);
      KnownField(w, k, f);
    }
    var b := WriteFields(w, gs[1..], v).value;
    if b != [] {
      HeadOrNone(w, gs[1..], v);
    }
  }

  lemma OnlyField(w: Schema, k: string, n: nat, v: Value)
    requires v.VObj? && k in w && n < |w[k].fields| && WriteFields(w, w[k].fields[n..][1..], v) == Ok([])
    requires forall i :: 0 <= i < n ==> !IsSet(v.fields, w[k].fields[i].fid)
    requires forall fid :: fid in v.fields ==> !v.fields[fid].VNil? && Has(w[k].fields, fid)
    ensures forall fid :: fid in v.fields ==> fid == w[k].fields[n].fid
  {
    hide WriteFields;
    var fs := w[k].fields;
    NoneSet(w, fs[n..][1..], v);
    forall i | n < i < |fs|
      ensures !IsSet(v.fields, fs[i].fid)
    {
      assert fs[n..][1..][i - n - 1] == fs[i];
    }
    forall fid | fid in v.fields
      ensures fid == fs[n].fid
    {
      var f := FieldAt(fs, fid).value;
      var i :| 0 <= i < |fs| && fs[i] == f;
      assert IsSet(v.fields, fs[i].fid);
    }
  }

  lemma NoFieldSet(w: Schema, k: string, v: Value)
    requires v.VObj? && k in w && (forall f :: f in w[k].fields ==> !IsSet(v.fields, f.fid))
    requires forall fid :: fid in v.fields ==> !v.fields[fid].VNil? && Has(w[k].fields, fid)
    ensures forall fid :: fid !in v.fields
  {
    forall fid | fid in v.fields
      ensures false
    {
      var f := FieldAt(w[k].fields, fid).value;
      assert f in w[k].fields && IsSet(v.fields, f.fid);
    }
  }

  lemma UnionArrived(w: Schema, r: Schema, k: string, f: FieldDef, v: Value, c: Value)
    requires v.VObj? && v.klass == k && k in w && k in r && r[k].isUnion && FieldAt(w[k].fields, f.fid) == Some(f) && FieldAt(r[k].fields, f.fid).Some?
    requires f.fid in v.fields && Convert(w, r, Obj(k), v) == VObj(k, if c.VNil? then map[] else map[f.fid := c])
    ensures Shared(w, r, k, f.fid) && c == Convert(w, r, f.info, v.fields[f.fid])
  {
    hide FieldAt;
    assert Shared(w, r, k, f.fid);
    assert f.fid in Convert(w, r, Obj(k), v).fields;
  }

  lemma SentWritten(w: Schema, wi: Info, v: Value)
    requires Sent(w, wi, v)
    ensures WriteAny(w, wi, v).Ok?
  {
    hide KnownInfo, Proper, WriteAny;
  }

  // ----- the theorem

  /**
   * Reading a written value gives what the reader should see of it, and consumes exactly what was written, if and only
   * if the reader's types fit the value. No relation between the two types is assumed.
   */
  lemma ReadsIff(w: Schema, r: Schema, wi: Info, ri: Info, v: Value, rest: seq<Token>)
    requires Setting(w, r) && Sent(w, wi, v)
    ensures ReadAny(r, TypeOf(wi), ri, WriteAny(w, wi, v).value + rest) == Ok((Convert(w, r, wi, v), rest)) <==> Fits(w, r, wi, ri, v)
  {
    hide Setting, Sent, GoodSchema, Convert, Fits, WriteAny, ReadAny, TypeOf;
    SettingGood(w, r);
    SentWritten(w, wi, v);
    if Fits(w, r, wi, ri, v) {
      ReadsAny(w, r, wi, ri, v, rest);
    }
    if ReadAny(r, TypeOf(wi), ri, WriteAny(w, wi, v).value + rest) == Ok((Convert(w, r, wi, v), rest)) {
      FitsBack(w, r, wi, ri, v, rest);
    }
  }
}
