/** The serializer itself: methods that advance a stream of tokens, each computing what Wire specifies. */
module Serializers {
  import opened Wrappers
  import opened Wire
  import opened Partials

  /** The elements from i on remain to be written. */
  lemma ElemsLeft(s: Schema, e: Info, es: seq<Value>, i: nat)
    requires i < |es|
    ensures WriteElems(s, e, es[i..]) == Both(WriteAny(s, e, es[i]), WriteElems(s, e, es[i + 1..]))
    ensures WriteAny(s, e, es[i]).Err? ==> EmittedElems(s, e, es[i..]) == Emitted(s, e, es[i])
    ensures WriteAny(s, e, es[i]).Ok? ==> EmittedElems(s, e, es[i..]) == WriteAny(s, e, es[i]).value + EmittedElems(s, e, es[i + 1..])
  {
    hide WriteAny, Emitted;
    assert es[i..][1..] == es[i + 1..];
    if WriteAny(s, e, es[i]).Ok? {
      EmittedAll(s, e, es[i]);
    }
  }

  lemma PairsLeft(s: Schema, k: Info, e: Info, ps: seq<(Value, Value)>, i: nat)
    requires i < |ps|
    ensures WritePairs(s, k, e, ps[i..]) == Both(WritePair(s, k, e, ps[i]), WritePairs(s, k, e, ps[i + 1..]))
    ensures WritePair(s, k, e, ps[i]).Err? ==> EmittedPairs(s, k, e, ps[i..]) == EmittedPair(s, k, e, ps[i])
    ensures WritePair(s, k, e, ps[i]).Ok? ==>
              EmittedPairs(s, k, e, ps[i..]) == WritePair(s, k, e, ps[i]).value + EmittedPairs(s, k, e, ps[i + 1..])
  {
    hide WritePair, EmittedPair;
    assert ps[i..][1..] == ps[i + 1..];
    if WritePair(s, k, e, ps[i]).Ok? {
      EmittedAllPair(s, k, e, ps[i]);
    }
  }

  lemma FieldsLeft(s: Schema, fs: seq<FieldDef>, v: Value, i: nat)
    requires v.VObj? && i < |fs|
    ensures WriteFields(s, fs[i..], v)
         == if IsSet(v.fields, fs[i].fid) then
              Both(Headed(FieldHead(TypeOf(fs[i].info), fs[i].fid), WriteAny(s, fs[i].info, v.fields[fs[i].fid])), WriteFields(s, fs[i + 1..], v))
            else WriteFields(s, fs[i + 1..], v)
    ensures EmittedFields(s, fs[i..], v)
         == if !IsSet(v.fields, fs[i].fid) then EmittedFields(s, fs[i + 1..], v)
            else
              var r := WriteAny(s, fs[i].info, v.fields[fs[i].fid]);
              [FieldHead(TypeOf(fs[i].info), fs[i].fid)] +
              (if r.Ok? then r.value + EmittedFields(s, fs[i + 1..], v) else Emitted(s, fs[i].info, v.fields[fs[i].fid]))
  {
    hide WriteAny, Emitted;
    assert fs[i..][1..] == fs[i + 1..];
    if IsSet(v.fields, fs[i].fid) && WriteAny(s, fs[i].info, v.fields[fs[i].fid]).Ok? {
      EmittedAll(s, fs[i].info, v.fields[fs[i].fid]);
    }
  }

  lemma Regroup(a: seq<Token>, b: seq<Token>, c: seq<Token>, d: seq<Token>)
    ensures a + b + c + d == a + (b + (c + d)) && b + (c + d) == b + c + d
  {
  }

  /** What is still to be written, after ts has been. */
  function After(ts: seq<Token>, r: Result<seq<Token>>): Result<seq<Token>> {
    if r.Ok? then Ok(ts + r.value) else r
  }

  lemma AfterBoth(ts: seq<Token>, us: seq<Token>, r: Result<seq<Token>>)
    ensures After(ts, Both(Ok(us), r)) == After(ts + us, r)
  {
    if r.Ok? {
      assert ts + (us + r.value) == ts + us + r.value;
    }
  }

  lemma AfterNothing(r: Result<seq<Token>>)
    ensures After([], r) == r
  {
    if r.Ok? {
      assert [] + r.value == r.value;
    }
  }

  lemma {:induction false} ElemsDone(s: Schema, e: Info, es: seq<Value>, done: seq<Token>)
    requires After(done, WriteElems(s, e, es[|es|..])) == WriteElems(s, e, es)
    ensures WriteElems(s, e, es) == Ok(done)
  {
    assert es[|es|..] == [] && done + [] == done;
  }

  lemma {:induction false} PairsDone(s: Schema, k: Info, e: Info, ps: seq<(Value, Value)>, done: seq<Token>)
    requires After(done, WritePairs(s, k, e, ps[|ps|..])) == WritePairs(s, k, e, ps)
    ensures WritePairs(s, k, e, ps) == Ok(done)
  {
    assert ps[|ps|..] == [] && done + [] == done;
  }

  lemma {:induction false} FieldsDone(s: Schema, fs: seq<FieldDef>, v: Value, done: seq<Token>)
    requires v.VObj? && After(done, WriteFields(s, fs[|fs|..], v)) == WriteFields(s, fs, v)
    ensures WriteFields(s, fs, v) == Ok(done)
  {
    assert fs[|fs|..] == [];
    assert WriteFields(s, [], v) == Ok([]);
    assert done + [] == done;
  }

  class ThriftSerializer {
    const schema: Schema
    var input: seq<Token>
    var out: seq<Token>

    constructor (schema: Schema, input: seq<Token>)
      ensures this.schema == schema && this.input == input && out == []
    {
      this.schema := schema;
      this.input := input;
      out := [];
    }

    // ----- writing

    /** The new output after writing what r describes; when it fails, the tokens before the fault. */
    ghost predicate Wrote(before: seq<Token>, r: Result<seq<Token>>, emitted: seq<Token>, e: Option<Error>)
      reads `out
    {
      if r.Ok? then e.None? && out == before + r.value else e == Some(r.error) && out == before + emitted
    }

    method WriteAny(info: Info, v: Value) returns (e: Option<Error>)
      modifies `out
      ensures Wrote(old(out), Wire.WriteAny(schema, info, v), Emitted(schema, info, v), e)
      decreases v, 2
    {
      match info
      case Prim(t) => e := WriteScalar(t, v);
      case ListOf(elem) =>
        if !v.VList? {
          return Some(TypeMismatch);
        }
        e := WriteElements(elem, v);
      case SetOf(elem) =>
        if !v.VSet? {
          return Some(TypeMismatch);
        }
        e := WriteElements(elem, v);
      case MapOf(k, elem) =>
        if !v.VHash? {
          return Some(TypeMismatch);
        }
        e := WriteHash(k, elem, v);
      case Obj(k) =>
        if !(v.VObj? && v.klass == k) {
          return Some(TypeMismatch);
        }
        if k !in schema {
          return Some(NoClass);
        }
        e := WriteStruct(k, v);
        if e.None? {
          out := out + [Stop];
        }
    }

    method WriteScalar(t: WireType, v: Value) returns (e: Option<Error>)
      modifies `out
      ensures Wrote(old(out), WriteAtom(t, v), [], e)
    {
      e := None;
      match t
      case TBool =>
        if v.VBool? { out := out + [Scalar(t, ABool(v.b))]; } else { e := Some(TypeMismatch); }
      case TDouble =>
        if v.VDouble? { out := out + [Scalar(t, ADouble(v.r))]; } else { e := Some(TypeMismatch); }
      case TString =>
        if v.VStr? { out := out + [Scalar(t, ABytes(v.s))]; } else { e := Some(TypeMismatch); }
      case TByte | TI16 | TI32 | TI64 =>
        if !v.VInt? {
          e := Some(TypeMismatch);
        } else if InRange(t, v.i) {
          out := out + [Scalar(t, AInt(v.i))];
        } else {
          e := Some(RangeError);
        }
      case _ =>
    }

    method WriteElements(elem: Info, v: Value) returns (e: Option<Error>)
      requires v.VList? || v.VSet?
      modifies `out
      ensures Wrote(old(out), Headed(ListHead(TypeOf(elem), |v.es|), WriteElems(schema, elem, v.es)),
                    [ListHead(TypeOf(elem), |v.es|)] + EmittedElems(schema, elem, v.es), e)
      decreases v, 1
    {
      hide Wire.WriteAny, Emitted, WriteElems, EmittedElems;
      var es := v.es;
      var head := ListHead(TypeOf(elem), |es|);
      out := out + [head];
      ghost var start, done := out, [];
      assert es[0..] == es;
      AfterNothing(WriteElems(schema, elem, es));
      for i := 0 to |es|
        invariant out == start + done
        invariant After(done, WriteElems(schema, elem, es[i..])) == WriteElems(schema, elem, es)
        invariant done + EmittedElems(schema, elem, es[i..]) == EmittedElems(schema, elem, es)
      {
        ElemsLeft(schema, elem, es, i);
        e := WriteAny(elem, es[i]);
        if e.Some? {
          Regroup(old(out), [head], done, Emitted(schema, elem, es[i]));
          return;
        }
        ghost var ts := Wire.WriteAny(schema, elem, es[i]).value;
        Regroup(start, done, ts, EmittedElems(schema, elem, es[i + 1..]));
        AfterBoth(done, ts, WriteElems(schema, elem, es[i + 1..]));
        done := done + ts;
      }
      ElemsDone(schema, elem, es, done);
      e := None;
    }

    method WriteHash(k: Info, elem: Info, v: Value) returns (e: Option<Error>)
      requires v.VHash?
      modifies `out
      ensures Wrote(old(out), Headed(MapHead(TypeOf(k), TypeOf(elem), |v.ps|), WritePairs(schema, k, elem, v.ps)),
                    [MapHead(TypeOf(k), TypeOf(elem), |v.ps|)] + EmittedPairs(schema, k, elem, v.ps), e)
      decreases v, 1
    {
      hide WritePair, EmittedPair, WritePairs, EmittedPairs;
      var ps := v.ps;
      var head := MapHead(TypeOf(k), TypeOf(elem), |ps|);
      out := out + [head];
      ghost var start, done := out, [];
      assert ps[0..] == ps;
      AfterNothing(WritePairs(schema, k, elem, ps));
      for i := 0 to |ps|
        invariant out == start + done
        invariant After(done, WritePairs(schema, k, elem, ps[i..])) == WritePairs(schema, k, elem, ps)
        invariant done + EmittedPairs(schema, k, elem, ps[i..]) == EmittedPairs(schema, k, elem, ps)
      {
        PairsLeft(schema, k, elem, ps, i);
        e := WriteKeyAndValue(k, elem, ps[i]);
        if e.Some? {
          Regroup(old(out), [head], done, EmittedPair(schema, k, elem, ps[i]));
          return;
        }
        ghost var ts := WritePair(schema, k, elem, ps[i]).value;
        Regroup(start, done, ts, EmittedPairs(schema, k, elem, ps[i + 1..]));
        AfterBoth(done, ts, WritePairs(schema, k, elem, ps[i + 1..]));
        done := done + ts;
      }
      PairsDone(schema, k, elem, ps, done);
      e := None;
    }

    method WriteKeyAndValue(k: Info, elem: Info, p: (Value, Value)) returns (e: Option<Error>)
      modifies `out
      ensures Wrote(old(out), WritePair(schema, k, elem, p), EmittedPair(schema, k, elem, p), e)
      decreases p, 3
    {
      hide Wire.WriteAny, Emitted;
      e := WriteAny(k, p.0);
      if e.None? {
        EmittedAll(schema, k, p.0);
        e := WriteAny(elem, p.1);
      }
    }

    method CheckRequiredFields(k: string, v: Value) returns (ok: bool)
      requires k in schema && v.VObj?
      ensures ok <==> MandatorySet(schema[k].fields, v.fields)
    {
      var fs := schema[k].fields;
      for i := 0 to |fs|
        invariant forall j :: 0 <= j < i && !fs[j].optional ==> IsSet(v.fields, fs[j].fid)
      {
        if !fs[i].optional && !IsSet(v.fields, fs[i].fid) {
          return false;
        }
      }
      return true;
    }

    method WriteStruct(k: string, v: Value) returns (e: Option<Error>)
      requires k in schema && v.VObj?
      modifies `out
      ensures Wrote(old(out), Wire.WriteStruct(schema, k, v), EmittedStruct(schema, k, v), e)
      decreases v, 1
    {
      hide Wire.WriteAny, Emitted, WriteFields, EmittedFields, MandatorySet;
      var fs := schema[k].fields;
      var ok := CheckRequiredFields(k, v);
      if !ok {
        return Some(MissingMandatory);
      }
      ghost var start, done := out, [];
      assert fs[0..] == fs;
      AfterNothing(WriteFields(schema, fs, v));
      for i := 0 to |fs|
        invariant out == start + done
        invariant After(done, WriteFields(schema, fs[i..], v)) == WriteFields(schema, fs, v)
        invariant done + EmittedFields(schema, fs[i..], v) == EmittedFields(schema, fs, v)
      {
        FieldsLeft(schema, fs, v, i);
        if IsSet(v.fields, fs[i].fid) {
          var head := FieldHead(TypeOf(fs[i].info), fs[i].fid);
          out := out + [head];
          e := WriteAny(fs[i].info, v.fields[fs[i].fid]);
          if e.Some? {
            Regroup(start, done, [head], Emitted(schema, fs[i].info, v.fields[fs[i].fid]));
            return;
          }
          ghost var ts := Wire.WriteAny(schema, fs[i].info, v.fields[fs[i].fid]).value;
          Regroup(start, done, [head], ts);
          Regroup(done, [head], ts, EmittedFields(schema, fs[i + 1..], v));
          AfterBoth(done, [head] + ts, WriteFields(schema, fs[i + 1..], v));
          done := done + ([head] + ts);
        }
      }
      FieldsDone(schema, fs, v, done);
      e := None;
    }

    // ----- reading

    /** Exactly what r says was read, or its error raised; a failed read leaves the stream anywhere. */
    ghost predicate Read(r: Reading, e: Result<Value>)
      reads `input
    {
      if r.Ok? then e == Ok(r.value.0) && input == r.value.1 else e == Err(r.error)
    }

    ghost predicate Skipped(r: Result<seq<Token>>, e: Option<Error>)
      reads `input
    {
      if r.Ok? then e.None? && input == r.value else e == Some(r.error)
    }

    method SkipOne(t: WireType) returns (e: Option<Error>)
      modifies `input
      ensures Skipped(Skip(t, old(input)), e)
    {
      var r := Skip(t, input);
      if r.Err? {
        return Some(r.error);
      }
      input := r.value;
      e := None;
    }

    method SkipNType(n: nat, t: WireType) returns (e: Option<Error>)
      modifies `input
      ensures Skipped(SkipElems(t, n, old(input)), e)
    {
      for i := 0 to n
        invariant SkipElems(t, n - i, input) == SkipElems(t, n, old(input))
      {
        e := SkipOne(t);
        if e.Some? {
          return;
        }
      }
      e := None;
    }

    method SkipNPair(n: nat, a: WireType, b: WireType) returns (e: Option<Error>)
      modifies `input
      ensures Skipped(SkipPairs(a, b, n, old(input)), e)
    {
      for i := 0 to n
        invariant SkipPairs(a, b, n - i, input) == SkipPairs(a, b, n, old(input))
      {
        e := SkipOne(a);
        if e.Some? {
          return;
        }
        e := SkipOne(b);
        if e.Some? {
          return;
        }
      }
      e := None;
    }

    method ReadAny(t: WireType, info: Info) returns (r: Result<Value>)
      modifies `input
      ensures Read(Wire.ReadAny(schema, t, info, old(input)), r)
      decreases |input|, 2
    {
      match t
      case TStop => r := Err(UnknownType);
      case TStruct =>
        if !info.Obj? || info.klass !in schema {
          return Err(NoClass);
        }
        if schema[info.klass].isUnion {
          r := ReadUnion(info.klass);
        } else {
          r := ReadStruct(info.klass);
        }
      case TList | TSet => r := ReadListOrSet(t, info);
      case TMap => r := ReadHash(info);
      case _ =>
        if !AtScalar(input, t) {
          return Err(BadToken);
        }
        r := Ok(AtomValue(input[0].a));
        input := input[1..];
    }

    method ReadListOrSet(t: WireType, info: Info) returns (r: Result<Value>)
      requires t == TList || t == TSet
      modifies `input
      ensures Read(Wire.ReadAny(schema, t, info, old(input)), r)
      decreases |input|, 1
    {
      hide ReadElems, SkipElems, Distinct;
      if !(input != [] && input[0].ListHead?) {
        return Err(BadToken);
      }
      var elem, size := input[0].elem, input[0].size;
      input := input[1..];
      if Element(info) == None || elem != TypeOf(Element(info).value) {
        var e := SkipNType(size, elem);
        return if e.Some? then Err(e.value) else Ok(VNil);
      }
      var q := ReadElements(Element(info).value, size);
      if q.Err? {
        return Err(q.error);
      }
      r := Ok(Collected(schema, t, q.value));
    }

    method ReadElements(info: Info, n: nat) returns (r: Result<seq<Value>>)
      modifies `input
      ensures var q := ReadElems(schema, info, n, [], old(input));
              if q.Ok? then r == Ok(q.value.0) && input == q.value.1 else r == Err(q.error)
      decreases |input|, 3, n
    {
      hide Wire.ReadAny;
      var es: seq<Value> := [];
      for i := 0 to n
        invariant |input| <= |old(input)|
        invariant ReadElems(schema, info, n - i, es, input) == ReadElems(schema, info, n, [], old(input))
      {
        var q := ReadAny(TypeOf(info), info);
        if q.Err? {
          return Err(q.error);
        }
        es := es + [q.value];
      }
      r := Ok(es);
    }

    method ReadHash(info: Info) returns (r: Result<Value>)
      modifies `input
      ensures Read(Wire.ReadAny(schema, TMap, info, old(input)), r)
      decreases |input|, 1
    {
      hide ReadPairs, SkipPairs;
      if !(input != [] && input[0].MapHead?) {
        return Err(BadToken);
      }
      var key, val, size := input[0].key, input[0].val, input[0].size;
      input := input[1..];
      if !info.MapOf? {
        var e := SkipNPair(size, key, val);
        return if e.Some? then Err(e.value) else Ok(VNil);
      }
      r := ReadEntries(key, val, info.key, info.elem, size);
    }

    method ReadEntries(kt: WireType, vt: WireType, k: Info, elem: Info, n: nat) returns (r: Result<Value>)
      modifies `input
      ensures Read(ReadPairs(schema, kt, vt, k, elem, n, [], old(input)), r)
      decreases |input|, 3, n
    {
      hide Wire.ReadAny, PutPair;
      var ps: seq<(Value, Value)> := [];
      for i := 0 to n
        invariant |input| <= |old(input)|
        invariant ReadPairs(schema, kt, vt, k, elem, n - i, ps, input) == ReadPairs(schema, kt, vt, k, elem, n, [], old(input))
      {
        var q := ReadAny(kt, k);
        if q.Err? {
          return q;
        }
        r := ReadAny(vt, elem);
        if r.Err? {
          return;
        }
        ps := PutPair(schema, ps, q.value, r.value);
      }
      r := Ok(VHash(ps));
    }

    method ReadStruct(k: string) returns (r: Result<Value>)
      requires k in schema
      modifies `input
      ensures Read(ReadFields(schema, k, New(schema, k).fields, old(input)), r)
      decreases |input|, 1
    {
      hide Wire.ReadAny, Skip, New, FieldAt;
      var fields := New(schema, k).fields;
      while true
        invariant |input| <= |old(input)|
        invariant ReadFields(schema, k, fields, input) == ReadFields(schema, k, New(schema, k).fields, old(input))
        decreases |input|
      {
        if AtStop(input) {
          input := input[1..];
          return Ok(VObj(k, fields));
        }
        if !AtField(input) {
          return Err(BadToken);
        }
        var ftype, fid := input[0].ftype, input[0].fid;
        input := input[1..];
        var f := FieldAt(schema[k].fields, fid);
        if f.None? {
          var e := SkipOne(ftype);
          if e.Some? {
            return Err(e.value);
          }
        } else {
          if TypeOf(f.value.info) != ftype {
            return Err(TypeMismatch);
          }
          r := ReadAny(ftype, f.value.info);
          if r.Err? {
            return;
          }
          if !r.value.VNil? {
            fields := fields[f.value.fid := r.value];
          }
        }
      }
    }

    method ReadUnion(k: string) returns (r: Result<Value>)
      requires k in schema
      modifies `input
      ensures Read(Wire.ReadUnion(schema, k, old(input)), r)
      decreases |input|, 1
    {
      hide Wire.ReadAny, Skip, FieldAt;
      if AtStop(input) {
        input := input[1..];
        return Ok(VObj(k, map[]));
      }
      if !AtField(input) {
        return Err(BadToken);
      }
      var ftype, fid := input[0].ftype, input[0].fid;
      input := input[1..];
      var f := FieldAt(schema[k].fields, fid);
      if f.None? {
        var e := SkipOne(ftype);
        return if e.Some? then Err(e.value) else Ok(VObj(k, map[]));
      }
      r := ReadAny(ftype, f.value.info);
      if r.Err? {
        return;
      }
      var fields: map<int, Value> := if r.value.VNil? then map[] else map[f.value.fid := r.value];
      if AtStop(input) {
        input := input[1..];
        return Ok(VObj(k, fields));
      }
      r := Err(if AtField(input) then UnionException else BadToken);
    }
  }
}
