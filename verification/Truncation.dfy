/** Reading is local: what follows a value in the stream does not matter, and a stream cut short is rejected. */
module Truncation {
  import opened Wrappers
  import opened Wire
  import opened Interop

  /** q skips what r skips, of a stream that goes on with x; unless r met the end, they raise the same. */
  ghost predicate SkipGoesOn(r: Result<seq<Token>>, q: Result<seq<Token>>, x: seq<Token>) {
    (r.Ok? ==> q == Ok(r.value + x)) && (r.Err? && r.error != BadToken ==> q == r)
  }

  /** The same of reading a value. */
  ghost predicate ReadGoesOn<T>(r: Result<(T, seq<Token>)>, q: Result<(T, seq<Token>)>, x: seq<Token>) {
    (r.Ok? ==> q == Ok((r.value.0, r.value.1 + x))) && (r.Err? && r.error != BadToken ==> q == r)
  }

  lemma Front(ts: seq<Token>, x: seq<Token>)
    requires ts != []
    ensures (ts + x)[0] == ts[0] && (ts + x)[1..] == ts[1..] + x
  {
  }

  // ----- skipping

  lemma {:induction false} SkipAnyOn(t: WireType, ts: seq<Token>, x: seq<Token>)
    ensures SkipGoesOn(Skip(t, ts), Skip(t, ts + x), x)
    decreases |ts|, 1
  {
    hide SkipFields, SkipElems, SkipPairs;
    if ts != [] {
      Front(ts, x);
    }
    match t
    case TStruct => SkipFieldsOn(ts, x);
    case TList | TSet =>
      if ts != [] && ts[0].ListHead? {
        SkipElemsOn(ts[0].elem, ts[0].size, ts[1..], x);
      }
    case TMap =>
      if ts != [] && ts[0].MapHead? {
        SkipPairsOn(ts[0].key, ts[0].val, ts[0].size, ts[1..], x);
      }
    case _ =>
  }

  lemma {:induction false} SkipFieldsOn(ts: seq<Token>, x: seq<Token>)
    ensures SkipGoesOn(SkipFields(ts), SkipFields(ts + x), x)
    decreases |ts|, 0
  {
    hide Skip;
    if ts != [] {
      Front(ts, x);
    }
    if AtField(ts) {
      SkipAnyOn(ts[0].ftype, ts[1..], x);
      var r := Skip(ts[0].ftype, ts[1..]);
      if r.Ok? {
        SkipFieldsOn(r.value, x);
      }
    }
  }

  lemma {:induction false} SkipElemsOn(t: WireType, n: nat, ts: seq<Token>, x: seq<Token>)
    ensures SkipGoesOn(SkipElems(t, n, ts), SkipElems(t, n, ts + x), x)
    decreases |ts|, 2, n
  {
    hide Skip;
    if n > 0 {
      SkipAnyOn(t, ts, x);
      var r := Skip(t, ts);
      if r.Ok? {
        SkipElemsOn(t, n - 1, r.value, x);
      }
    }
  }

  lemma {:induction false} SkipPairsOn(k: WireType, t: WireType, n: nat, ts: seq<Token>, x: seq<Token>)
    ensures SkipGoesOn(SkipPairs(k, t, n, ts), SkipPairs(k, t, n, ts + x), x)
    decreases |ts|, 2, n
  {
    hide Skip;
    if n > 0 {
      SkipAnyOn(k, ts, x);
      var q := Skip(k, ts);
      if q.Ok? {
        SkipAnyOn(t, q.value, x);
        var r := Skip(t, q.value);
        if r.Ok? {
          SkipPairsOn(k, t, n - 1, r.value, x);
        }
      }
    }
  }

  // ----- reading

  /** Reading a value, or the error it raises, depends on the tokens of that value alone. */
  lemma {:induction false} ReadAnyOn(s: Schema, t: WireType, info: Info, ts: seq<Token>, x: seq<Token>)
    ensures ReadGoesOn(ReadAny(s, t, info, ts), ReadAny(s, t, info, ts + x), x)
    decreases |ts|, 1
  {
    hide ReadFields, ReadUnion;
    if ts != [] {
      Front(ts, x);
    }
    match t
    case TStruct =>
      if info.Obj? && info.klass in s {
        if s[info.klass].isUnion {
          ReadUnionOn(s, info.klass, ts, x);
        } else {
          ReadFieldsOn(s, info.klass, New(s, info.klass).fields, ts, x);
        }
      }
    case TList | TSet => ReadListOn(s, t, info, ts, x);
    case TMap => ReadHashOn(s, info, ts, x);
    case _ =>
  }

  lemma {:induction false} ReadListOn(s: Schema, t: WireType, info: Info, ts: seq<Token>, x: seq<Token>)
    requires t == TList || t == TSet
    ensures ReadGoesOn(ReadAny(s, t, info, ts), ReadAny(s, t, info, ts + x), x)
    decreases |ts|, 0
  {
    hide ReadElems, SkipElems, Collected;
    if ts != [] {
      Front(ts, x);
      if ts[0].ListHead? {
        if Element(info) == None || ts[0].elem != TypeOf(Element(info).value) {
          SkipElemsOn(ts[0].elem, ts[0].size, ts[1..], x);
        } else {
          ReadElemsOn(s, Element(info).value, ts[0].size, [], ts[1..], x);
        }
      }
    }
  }

  lemma {:induction false} ReadHashOn(s: Schema, info: Info, ts: seq<Token>, x: seq<Token>)
    ensures ReadGoesOn(ReadAny(s, TMap, info, ts), ReadAny(s, TMap, info, ts + x), x)
    decreases |ts|, 0
  {
    hide ReadPairs, SkipPairs;
    if ts != [] {
      Front(ts, x);
      if ts[0].MapHead? {
        if !info.MapOf? {
          SkipPairsOn(ts[0].key, ts[0].val, ts[0].size, ts[1..], x);
        } else {
          ReadPairsOn(s, ts[0].key, ts[0].val, info.key, info.elem, ts[0].size, [], ts[1..], x);
        }
      }
    }
  }

  lemma {:induction false} ReadElemsOn(s: Schema, info: Info, n: nat, done: seq<Value>, ts: seq<Token>, x: seq<Token>)
    ensures ReadGoesOn(ReadElems(s, info, n, done, ts), ReadElems(s, info, n, done, ts + x), x)
    decreases |ts|, 2, n
  {
    hide ReadAny;
    if n > 0 {
      ReadAnyOn(s, TypeOf(info), info, ts, x);
      var r := ReadAny(s, TypeOf(info), info, ts);
      if r.Ok? {
        ReadElemsOn(s, info, n - 1, done + [r.value.0], r.value.1, x);
      }
    }
  }

  lemma {:induction false} ReadPairsOn(s: Schema, kt: WireType, vt: WireType, k: Info, e: Info, n: nat,
                                       done: seq<(Value, Value)>, ts: seq<Token>, x: seq<Token>)
    ensures ReadGoesOn(ReadPairs(s, kt, vt, k, e, n, done, ts), ReadPairs(s, kt, vt, k, e, n, done, ts + x), x)
    decreases |ts|, 2, n
  {
    hide ReadAny, PutPair;
    if n > 0 {
      ReadAnyOn(s, kt, k, ts, x);
      var q := ReadAny(s, kt, k, ts);
      if q.Ok? {
        ReadAnyOn(s, vt, e, q.value.1, x);
        var r := ReadAny(s, vt, e, q.value.1);
        if r.Ok? {
          ReadPairsOn(s, kt, vt, k, e, n - 1, PutPair(s, done, q.value.0, r.value.0), r.value.1, x);
        }
      }
    }
  }

  lemma {:induction false} ReadFieldsOn(s: Schema, k: string, fields: map<int, Value>, ts: seq<Token>, x: seq<Token>)
    requires k in s
    ensures ReadGoesOn(ReadFields(s, k, fields, ts), ReadFields(s, k, fields, ts + x), x)
    decreases |ts|, 0
  {
    hide ReadAny, Skip;
    if ts != [] {
      Front(ts, x);
    }
    if AtField(ts) {
      var f := FieldAt(s[k].fields, ts[0].fid);
      if f.None? {
        SkipAnyOn(ts[0].ftype, ts[1..], x);
        var r := Skip(ts[0].ftype, ts[1..]);
        if r.Ok? {
          ReadFieldsOn(s, k, fields, r.value, x);
        }
      } else if TypeOf(f.value.info) == ts[0].ftype {
        ReadAnyOn(s, ts[0].ftype, f.value.info, ts[1..], x);
        var r := ReadAny(s, ts[0].ftype, f.value.info, ts[1..]);
        if r.Ok? {
          ReadFieldsOn(s, k, if r.value.0.VNil? then fields else fields[f.value.fid := r.value.0], r.value.1, x);
        }
      }
    }
  }

  lemma {:induction false} ReadUnionOn(s: Schema, k: string, ts: seq<Token>, x: seq<Token>)
    requires k in s
    ensures ReadGoesOn(ReadUnion(s, k, ts), ReadUnion(s, k, ts + x), x)
    decreases |ts|, 0
  {
    hide ReadAny, Skip;
    if ts != [] {
      Front(ts, x);
    }
    if AtField(ts) {
      var f := FieldAt(s[k].fields, ts[0].fid);
      if f.None? {
        SkipAnyOn(ts[0].ftype, ts[1..], x);
      } else {
        ReadAnyOn(s, ts[0].ftype, f.value.info, ts[1..], x);
        var r := ReadAny(s, ts[0].ftype, f.value.info, ts[1..]);
        if r.Ok? && r.value.1 != [] {
          Front(r.value.1, x);
        }
      }
    }
  }

  // ----- streams that end too soon

  /** If n tokens are fewer than a value took, the protocol rejects the stream that ends after them. */
  lemma TruncatedRead(s: Schema, t: WireType, info: Info, ts: seq<Token>, n: nat)
    requires ReadAny(s, t, info, ts).Ok? && n < |ts| - |ReadAny(s, t, info, ts).value.1|
    ensures ReadAny(s, t, info, ts[..n]) == Err(BadToken)
  {
    assert ts == ts[..n] + ts[n..];
    ReadAnyOn(s, t, info, ts[..n], ts[n..]);
  }

  lemma TruncatedSkip(t: WireType, ts: seq<Token>, n: nat)
    requires Skip(t, ts).Ok? && n < |ts| - |Skip(t, ts).value|
    ensures Skip(t, ts[..n]) == Err(BadToken)
  {
    assert ts == ts[..n] + ts[n..];
    SkipAnyOn(t, ts[..n], ts[n..]);
  }

  /** A written value that fits the reader is never taken for a shorter one: every proper prefix of it is rejected. */
  lemma CutShort(w: Schema, r: Schema, wi: Info, ri: Info, v: Value, n: nat)
    requires Setting(w, r) && Sendable(w, r, wi, ri, v)
    requires WriteAny(w, wi, v).Ok? && n < |WriteAny(w, wi, v).value|
    ensures ReadAny(r, TypeOf(wi), ri, WriteAny(w, wi, v).value[..n]) == Err(BadToken)
  {
    hide Setting, Sendable, Convert, WriteAny, ReadAny;
    var ts := WriteAny(w, wi, v).value;
    assert ts + [] == ts;
    ReadsAny(w, r, wi, ri, v, []);
    TruncatedRead(r, TypeOf(wi), ri, ts, n);
  }

  /** Nor is it skipped. */
  lemma SkipCutShort(s: Schema, info: Info, v: Value, n: nat)
    requires GoodSchema(s) && KnownInfo(s, info) && WriteAny(s, info, v).Ok? && n < |WriteAny(s, info, v).value|
    ensures Skip(TypeOf(info), WriteAny(s, info, v).value[..n]) == Err(BadToken)
  {
    hide GoodSchema, KnownInfo, WriteAny, Skip;
    var ts := WriteAny(s, info, v).value;
    assert ts + [] == ts;
    SkipsAny(s, info, v, []);
    TruncatedSkip(TypeOf(info), ts, n);
  }
}
