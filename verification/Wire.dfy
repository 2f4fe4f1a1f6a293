/** Values, schemas and the token stream of the serializer, and what writing and reading mean. */
module Wire {
  import opened Wrappers

  datatype Result<T> = Ok(value: T) | Err(error: Error)

  /** The exceptions of the serializer; BadToken is a stream the protocol itself rejects, NoClass a struct without a class. */
  datatype Error = TypeMismatch | MissingMandatory | RangeError | UnionException | UnknownType | BadToken | NoClass

  datatype WireType = TStop | TBool | TByte | TDouble | TI16 | TI32 | TI64 | TString | TStruct | TMap | TSet | TList

  datatype Atom = ABool(b: bool) | AInt(i: int) | ADouble(r: real) | ABytes(s: string)

  /** Sets are announced by list headers. */
  datatype Token =
    | FieldHead(ftype: WireType, fid: int)
    | Stop
    | ListHead(elem: WireType, size: nat)
    | MapHead(key: WireType, val: WireType, size: nat)
    | Scalar(t: WireType, a: Atom)

  /** Hashes and sets keep insertion order; an instance variable that is nil is absent from an object. */
  datatype Value =
    | VNil
    | VBool(b: bool)
    | VInt(i: int)
    | VDouble(r: real)
    | VStr(s: string)
    | VList(es: seq<Value>)
    | VSet(es: seq<Value>)
    | VHash(ps: seq<(Value, Value)>)
    | VObj(klass: string, fields: map<int, Value>)

  /** `FieldInfo`: a type with its element, key and class information. */
  datatype Info =
    | Prim(t: WireType)
    | Obj(klass: string)
    | ListOf(elem: Info)
    | SetOf(elem: Info)
    | MapOf(key: Info, elem: Info)

  function TypeOf(info: Info): WireType {
    match info
    case Prim(t) => t
    case Obj(_) => TStruct
    case ListOf(_) => TList
    case SetOf(_) => TSet
    case MapOf(_, _) => TMap
  }

  predicate IsAtomic(t: WireType) {
    t in {TBool, TByte, TDouble, TI16, TI32, TI64, TString}
  }

  datatype FieldDef = FieldDef(fid: int, info: Info, optional: bool, default: Option<Value>)

  /** A class: its fields in ascending order of id, as the field map iterates over them. */
  datatype Klass = Klass(isUnion: bool, fields: seq<FieldDef>)

  type Schema = map<string, Klass>

  function FieldAt(fs: seq<FieldDef>, fid: int): (r: Option<FieldDef>)
    ensures r.Some? ==> r.value in fs && r.value.fid == fid
    ensures r.None? ==> forall f :: f in fs ==> f.fid != fid
  {
    if fs == [] then None else if fs[0].fid == fid then Some(fs[0]) else FieldAt(fs[1..], fid)
  }

  /** A new instance: a struct takes the default values, a union none. */
  function New(s: Schema, k: string): (v: Value)
    requires k in s
    ensures v.VObj? && v.klass == k
  {
    VObj(k, if s[k].isUnion then map[] else Defaults(s[k].fields))
  }

  function Defaults(fs: seq<FieldDef>): map<int, Value> {
    if fs == [] then map[]
    else (if fs[0].default.Some? && !fs[0].default.value.VNil? then map[fs[0].fid := fs[0].default.value] else map[]) + Defaults(fs[1..])
  }

  // ----- writing

  predicate InRange(t: WireType, i: int) {
    match t
    case TByte => -128 <= i < 128
    case TI16 => -0x8000 <= i < 0x8000
    case TI32 => -0x8000_0000 <= i < 0x8000_0000
    case _ => -0x8000_0000_0000_0000 <= i < 0x8000_0000_0000_0000
  }

  function WriteAtom(t: WireType, v: Value): Result<seq<Token>> {
    match t
    case TBool => if v.VBool? then Ok([Scalar(t, ABool(v.b))]) else Err(TypeMismatch)
    case TDouble => if v.VDouble? then Ok([Scalar(t, ADouble(v.r))]) else Err(TypeMismatch)
    case TString => if v.VStr? then Ok([Scalar(t, ABytes(v.s))]) else Err(TypeMismatch)
    case TByte | TI16 | TI32 | TI64 =>
      if !v.VInt? then Err(TypeMismatch) else if InRange(t, v.i) then Ok([Scalar(t, AInt(v.i))]) else Err(RangeError)
    case _ => Ok([])
  }

  /** `writeAny`. */
  function WriteAny(s: Schema, info: Info, v: Value): Result<seq<Token>>
    decreases v, 2
  {
    match info
    case Prim(t) => WriteAtom(t, v)
    case ListOf(e) =>
      if v.VList? then Headed(ListHead(TypeOf(e), |v.es|), WriteElems(s, e, v.es)) else Err(TypeMismatch)
    case SetOf(e) =>
      if v.VSet? then Headed(ListHead(TypeOf(e), |v.es|), WriteElems(s, e, v.es)) else Err(TypeMismatch)
    case MapOf(k, e) =>
      if v.VHash? then Headed(MapHead(TypeOf(k), TypeOf(e), |v.ps|), WritePairs(s, k, e, v.ps)) else Err(TypeMismatch)
    case Obj(k) =>
      if !(v.VObj? && v.klass == k) then Err(TypeMismatch)
      else if k !in s then Err(NoClass)
      else Then(WriteStruct(s, k, v), [Stop])
  }

  function Headed(t: Token, r: Result<seq<Token>>): Result<seq<Token>> {
    if r.Ok? then Ok([t] + r.value) else r
  }

  function Then(r: Result<seq<Token>>, ts: seq<Token>): Result<seq<Token>> {
    if r.Ok? then Ok(r.value + ts) else r
  }

  function Both(r: Result<seq<Token>>, q: Result<seq<Token>>): Result<seq<Token>> {
    if r.Err? then r else if q.Err? then q else Ok(r.value + q.value)
  }

  function WriteElems(s: Schema, e: Info, es: seq<Value>): Result<seq<Token>>
    decreases es, 0
  {
    if es == [] then Ok([]) else Both(WriteAny(s, e, es[0]), WriteElems(s, e, es[1..]))
  }

  function WritePairs(s: Schema, k: Info, e: Info, ps: seq<(Value, Value)>): Result<seq<Token>>
    decreases ps, 0
  {
    if ps == [] then Ok([])
    else Both(WritePair(s, k, e, ps[0]), WritePairs(s, k, e, ps[1..]))
  }

  function WritePair(s: Schema, k: Info, e: Info, p: (Value, Value)): Result<seq<Token>>
    decreases p, 3
  {
    Both(WriteAny(s, k, p.0), WriteAny(s, e, p.1))
  }

  /** `checkRequiredFields`. */
  predicate MandatorySet(fs: seq<FieldDef>, fields: map<int, Value>) {
    forall f :: f in fs && !f.optional ==> IsSet(fields, f.fid)
  }

  predicate IsSet(fields: map<int, Value>, fid: int) {
    fid in fields && !fields[fid].VNil?
  }

  /** `writeStruct`. */
  function WriteStruct(s: Schema, k: string, v: Value): Result<seq<Token>>
    requires v.VObj? && k in s
    decreases v, 1
  {
    if !MandatorySet(s[k].fields, v.fields) then Err(MissingMandatory) else WriteFields(s, s[k].fields, v)
  }

  function WriteFields(s: Schema, fs: seq<FieldDef>, v: Value): Result<seq<Token>>
    requires v.VObj?
    decreases v, 0, |fs|
  {
    if fs == [] then Ok([])
    else if !IsSet(v.fields, fs[0].fid) then WriteFields(s, fs[1..], v)
    else Both(Headed(FieldHead(TypeOf(fs[0].info), fs[0].fid), WriteAny(s, fs[0].info, v.fields[fs[0].fid])), WriteFields(s, fs[1..], v))
  }

  // ----- skipping, as the protocol does it

  predicate AtScalar(ts: seq<Token>, t: WireType) {
    ts != [] && ts[0].Scalar? && ts[0].t == t
  }

  /** A stop marker reads as a field header of type stop. */
  predicate AtStop(ts: seq<Token>) {
    ts != [] && (ts[0].Stop? || (ts[0].FieldHead? && ts[0].ftype.TStop?))
  }

  predicate AtField(ts: seq<Token>) {
    ts != [] && ts[0].FieldHead? && !ts[0].ftype.TStop?
  }

  function Skip(t: WireType, ts: seq<Token>): (r: Result<seq<Token>>)
    ensures r.Ok? ==> |r.value| <= |ts|
    decreases |ts|, 1
  {
    match t
    case TStop => Ok(ts)
    case TStruct => SkipFields(ts)
    case TList | TSet => if ts != [] && ts[0].ListHead? then SkipElems(ts[0].elem, ts[0].size, ts[1..]) else Err(BadToken)
    case TMap => if ts != [] && ts[0].MapHead? then SkipPairs(ts[0].key, ts[0].val, ts[0].size, ts[1..]) else Err(BadToken)
    case _ => if AtScalar(ts, t) then Ok(ts[1..]) else Err(BadToken)
  }

  function SkipFields(ts: seq<Token>): (r: Result<seq<Token>>)
    ensures r.Ok? ==> |r.value| < |ts|
    decreases |ts|, 0
  {
    if AtStop(ts) then Ok(ts[1..])
    else if !AtField(ts) then Err(BadToken)
    else
      var r := Skip(ts[0].ftype, ts[1..]);
      if r.Err? then r else SkipFields(r.value)
  }

  function SkipElems(t: WireType, n: nat, ts: seq<Token>): (r: Result<seq<Token>>)
    ensures r.Ok? ==> |r.value| <= |ts|
    decreases |ts|, 2, n
  {
    if n == 0 then Ok(ts)
    else
      var r := Skip(t, ts);
      if r.Err? then r else SkipElems(t, n - 1, r.value)
  }

  function SkipPairs(k: WireType, t: WireType, n: nat, ts: seq<Token>): (r: Result<seq<Token>>)
    ensures r.Ok? ==> |r.value| <= |ts|
    decreases |ts|, 2, n
  {
    if n == 0 then Ok(ts)
    else
      var q := Skip(k, ts);
      if q.Err? then q else
      var r := Skip(t, q.value);
      if r.Err? then r else SkipPairs(k, t, n - 1, r.value)
  }

  // ----- reading

  type Reading = Result<(Value, seq<Token>)>

  function Element(info: Info): Option<Info> {
    match info
    case ListOf(e) => Some(e)
    case SetOf(e) => Some(e)
    case MapOf(_, e) => Some(e)
    case _ => None
  }

  function AtomValue(a: Atom): Value {
    match a
    case ABool(b) => VBool(b)
    case AInt(i) => VInt(i)
    case ADouble(r) => VDouble(r)
    case ABytes(s) => VStr(s)
  }

  /** Objects of a struct class are hashed by identity, so no two of them are one key; all else is compared by value. */
  predicate ByIdentity(s: Schema, v: Value) {
    match v
    case VList(es) => exists i :: 0 <= i < |es| && ByIdentity(s, es[i])
    case VSet(es) => exists i :: 0 <= i < |es| && ByIdentity(s, es[i])
    case VHash(ps) => exists i :: 0 <= i < |ps| && (ByIdentity(s, ps[i].0) || ByIdentity(s, ps[i].1))
    case VObj(k, fields) => k !in s || !s[k].isUnion || exists fid :: fid in fields && ByIdentity(s, fields[fid])
    case _ => false
  }

  predicate SameKey(s: Schema, a: Value, b: Value) {
    a == b && !ByIdentity(s, a)
  }

  /** `Set.new`. */
  function Distinct(s: Schema, es: seq<Value>): seq<Value> {
    if es == [] then []
    else
      var d := Distinct(s, es[..|es| - 1]);
      var e := es[|es| - 1];
      if exists i :: 0 <= i < |d| && SameKey(s, d[i], e) then d else d + [e]
  }

  /** `rb_hash_aset`. */
  function PutPair(s: Schema, ps: seq<(Value, Value)>, k: Value, v: Value): seq<(Value, Value)> {
    if ps == [] then [(k, v)]
    else if SameKey(s, ps[0].0, k) then [(ps[0].0, v)] + ps[1..]
    else [ps[0]] + PutPair(s, ps[1..], k, v)
  }

  function Collected(s: Schema, t: WireType, es: seq<Value>): Value {
    if t == TList then VList(es) else VSet(Distinct(s, es))
  }

  /** `readAny`, for the type t that the stream announced. */
  function ReadAny(s: Schema, t: WireType, info: Info, ts: seq<Token>): (r: Reading)
    ensures r.Ok? ==> |r.value.1| < |ts|
    decreases |ts|, 1
  {
    match t
    case TStop => Err(UnknownType)
    case TStruct =>
      if !info.Obj? || info.klass !in s then Err(NoClass)
      else if s[info.klass].isUnion then ReadUnion(s, info.klass, ts) else ReadFields(s, info.klass, New(s, info.klass).fields, ts)
    case TList | TSet =>
      if !(ts != [] && ts[0].ListHead?) then Err(BadToken)
      else if Element(info) == None || ts[0].elem != TypeOf(Element(info).value) then
        var r := SkipElems(ts[0].elem, ts[0].size, ts[1..]);
        if r.Err? then Err(r.error) else Ok((VNil, r.value))
      else
        var r := ReadElems(s, Element(info).value, ts[0].size, [], ts[1..]);
        if r.Err? then Err(r.error)
        else Ok((Collected(s, t, r.value.0), r.value.1))
    case TMap =>
      if !(ts != [] && ts[0].MapHead?) then Err(BadToken)
      else if !info.MapOf? then
        var r := SkipPairs(ts[0].key, ts[0].val, ts[0].size, ts[1..]);
        if r.Err? then Err(r.error) else Ok((VNil, r.value))
      else ReadPairs(s, ts[0].key, ts[0].val, info.key, info.elem, ts[0].size, [], ts[1..])
    case _ =>
      if AtScalar(ts, t) then Ok((AtomValue(ts[0].a), ts[1..])) else Err(BadToken)
  }

  function ReadElems(s: Schema, info: Info, n: nat, done: seq<Value>, ts: seq<Token>): (r: Result<(seq<Value>, seq<Token>)>)
    ensures r.Ok? ==> |r.value.1| <= |ts|
    decreases |ts|, 2, n
  {
    if n == 0 then Ok((done, ts))
    else
      var r := ReadAny(s, TypeOf(info), info, ts);
      if r.Err? then Err(r.error) else ReadElems(s, info, n - 1, done + [r.value.0], r.value.1)
  }

  function ReadPairs(s: Schema, kt: WireType, vt: WireType, k: Info, e: Info, n: nat, done: seq<(Value, Value)>, ts: seq<Token>): (r: Reading)
    ensures r.Ok? ==> |r.value.1| <= |ts|
    decreases |ts|, 2, n
  {
    if n == 0 then Ok((VHash(done), ts))
    else
      var q := ReadAny(s, kt, k, ts);
      if q.Err? then q else
      var r := ReadAny(s, vt, e, q.value.1);
      if r.Err? then r else ReadPairs(s, kt, vt, k, e, n - 1, PutPair(s, done, q.value.0, r.value.0), r.value.1)
  }

  /** The loop of `readStruct`, with the fields set so far. */
  function ReadFields(s: Schema, k: string, fields: map<int, Value>, ts: seq<Token>): (r: Reading)
    requires k in s
    ensures r.Ok? ==> |r.value.1| < |ts|
    decreases |ts|, 0
  {
    if AtStop(ts) then Ok((VObj(k, fields), ts[1..]))
    else if !AtField(ts) then Err(BadToken)
    else
      var f := FieldAt(s[k].fields, ts[0].fid);
      if f.None? then
        var r := Skip(ts[0].ftype, ts[1..]);
        if r.Err? then Err(r.error) else ReadFields(s, k, fields, r.value)
      else if TypeOf(f.value.info) != ts[0].ftype then Err(TypeMismatch)
      else
        var r := ReadAny(s, ts[0].ftype, f.value.info, ts[1..]);
        if r.Err? then r
        else ReadFields(s, k, if r.value.0.VNil? then fields else fields[f.value.fid := r.value.0], r.value.1)
  }

  /** `readUnion`: one field, whose type is not compared; after an unknown one nothing more is read. */
  function ReadUnion(s: Schema, k: string, ts: seq<Token>): (r: Reading)
    requires k in s
    ensures r.Ok? ==> |r.value.1| < |ts|
    decreases |ts|, 0
  {
    if AtStop(ts) then Ok((VObj(k, map[]), ts[1..]))
    else if !AtField(ts) then Err(BadToken)
    else
      var f := FieldAt(s[k].fields, ts[0].fid);
      if f.None? then
        var r := Skip(ts[0].ftype, ts[1..]);
        if r.Err? then Err(r.error) else Ok((VObj(k, map[]), r.value))
      else
        var r := ReadAny(s, ts[0].ftype, f.value.info, ts[1..]);
        if r.Err? then r
        else if AtStop(r.value.1) then
          Ok((VObj(k, if r.value.0.VNil? then map[] else map[f.value.fid := r.value.0]), r.value.1[1..]))
        else if AtField(r.value.1) then Err(UnionException) else Err(BadToken)
  }
}
