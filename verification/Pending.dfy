/**
 * What the tokens ahead still have to bring, as a list of values to come. A reader that once stops short of a stop
 * marker has fewer values to come than the stream, and never catches up.
 */
module Pending {
  import opened Wrappers
  import opened Wire

  function Repeat(t: WireType, n: nat): seq<WireType> {
    seq(n, _ => t)
  }

  function Alternate(k: WireType, t: WireType, n: nat): seq<WireType> {
    if n == 0 then [] else [k, t] + Alternate(k, t, n - 1)
  }

  /** The values that a token opens in place of the value of type t it begins; a struct stays open after a field head. */
  function Opened(t: WireType, token: Token): Option<seq<WireType>> {
    match token
    case Scalar(u, _) => if u == t && IsAtomic(t) then Some([]) else None
    case Stop => if t == TStruct then Some([]) else None
    case FieldHead(u, _) => if t == TStruct then Some(if u == TStop then [] else [u, TStruct]) else None
    case ListHead(e, n) => if (t == TList || t == TSet) && e != TStop then Some(Repeat(e, n)) else None
    case MapHead(k, e, n) => if t == TMap && k != TStop && e != TStop then Some(Alternate(k, e, n)) else None
  }

  /** What follows the values to come. */
  function Drain(s: seq<WireType>, ts: seq<Token>): Result<seq<Token>>
    decreases |ts|
  {
    if s == [] then Ok(ts)
    else if ts == [] || Opened(s[0], ts[0]).None? then Err(BadToken)
    else Drain(Opened(s[0], ts[0]).value + s[1..], ts[1..])
  }

  lemma DrainStep(t: WireType, more: seq<WireType>, ts: seq<Token>)
    requires ts != [] && Opened(t, ts[0]).Some?
    ensures Drain([t] + more, ts) == Drain(Opened(t, ts[0]).value + more, ts[1..])
  {
    hide Opened;
    assert ([t] + more)[1..] == more;
  }

  /** Every value takes at least one token. */
  lemma {:induction false} DrainLength(s: seq<WireType>, ts: seq<Token>)
    requires Drain(s, ts).Ok?
    ensures |ts| >= |s| + |Drain(s, ts).value|
    decreases |ts|
  {
    hide Opened;
    if s != [] {
      DrainLength(Opened(s[0], ts[0]).value + s[1..], ts[1..]);
    }
  }

  lemma {:induction false} DrainAppend(a: seq<WireType>, b: seq<WireType>, ts: seq<Token>)
    requires Drain(a, ts).Ok?
    ensures Drain(a + b, ts) == Drain(b, Drain(a, ts).value)
    decreases |ts|
  {
    hide Opened;
    if a == [] {
      assert a + b == b;
    } else {
      var p := Opened(a[0], ts[0]).value;
      assert (a + b)[0] == a[0] && p + (a + b)[1..] == p + a[1..] + b;
      DrainAppend(p + a[1..], b, ts[1..]);
    }
  }

  // ----- fewer values to come

  /** a comes from b by leaving values out. */
  predicate Sub(a: seq<WireType>, b: seq<WireType>)
    decreases |b|
  {
    a == [] || (b != [] && ((a[0] == b[0] && Sub(a[1..], b[1..])) || Sub(a, b[1..])))
  }

  lemma {:induction false} SubSelf(a: seq<WireType>)
    ensures Sub(a, a)
    decreases |a|
  {
    if a != [] {
      SubSelf(a[1..]);
    }
  }

  lemma {:induction false} SubSkip(p: seq<WireType>, a: seq<WireType>)
    ensures Sub(a, p + a)
    decreases |p|
  {
    if p == [] {
      assert p + a == a;
      SubSelf(a);
    } else {
      assert (p + a)[1..] == p[1..] + a;
      SubSkip(p[1..], a);
    }
  }

  /** Without the first value left, the first of the others can go too. */
  lemma {:induction false} SubTail(a: seq<WireType>, b: seq<WireType>)
    requires a != [] && Sub(a, b)
    ensures b != [] && Sub(a[1..], b[1..]) && |b| >= |a|
    decreases |b|
  {
    if a[0] == b[0] && Sub(a[1..], b[1..]) {
      SubSize(a[1..], b[1..]);
    } else {
      SubTail(a, b[1..]);
      SubLater(a[1..], b[1..]);
    }
  }

  lemma {:induction false} SubSize(a: seq<WireType>, b: seq<WireType>)
    requires Sub(a, b)
    ensures |b| >= |a|
    decreases |b|
  {
    if a != [] {
      if a[0] == b[0] && Sub(a[1..], b[1..]) {
        SubSize(a[1..], b[1..]);
      } else {
        SubSize(a, b[1..]);
      }
    }
  }

  lemma SubLater(a: seq<WireType>, b: seq<WireType>)
    requires b != [] && Sub(a, b[1..])
    ensures Sub(a, b)
  {
  }

  lemma {:induction false} SubPrefix(p: seq<WireType>, a: seq<WireType>, b: seq<WireType>)
    requires Sub(a, b)
    ensures Sub(p + a, p + b)
    decreases |p|
  {
    if p == [] {
      assert p + a == a && p + b == b;
    } else {
      assert (p + a)[1..] == p[1..] + a && (p + b)[1..] == p[1..] + b;
      SubPrefix(p[1..], a, b);
    }
  }

  /** The stream has the values b to come up to end, a reader the values a; b has at least d more. */
  ghost predicate Ahead(a: seq<WireType>, b: seq<WireType>, d: nat, ts: seq<Token>, end: seq<Token>) {
    Drain(b, ts) == Ok(end) && Sub(a, b) && |b| >= |a| + d
  }

  /** One token, which the reader takes for its next value. */
  lemma TakeToken(t: WireType, more: seq<WireType>, b: seq<WireType>, d: nat, ts: seq<Token>, end: seq<Token>) returns (b': seq<WireType>)
    requires Ahead([t] + more, b, d, ts, end) && ts != [] && Opened(t, ts[0]).Some?
    ensures Ahead(Opened(t, ts[0]).value + more, b', d, ts[1..], end)
  {
    hide Sub;
    var a := [t] + more;
    assert a[1..] == more;
    SubTail(a, b);
    SameOpened(b[0], t, ts[0]);
    var p := Opened(t, ts[0]).value;
    b' := p + b[1..];
    SubPrefix(p, more, b[1..]);
  }

  /** What a token opens does not depend on what it is taken for. */
  lemma SameOpened(t: WireType, u: WireType, token: Token)
    requires Opened(t, token).Some? && Opened(u, token).Some?
    ensures Opened(t, token) == Opened(u, token)
  {
  }

  /** A reader with no values to come is behind by as much as it left out. */
  lemma Behind(b: seq<WireType>, d: nat, ts: seq<Token>, end: seq<Token>)
    requires Ahead([], b, d, ts, end)
    ensures |ts| >= |end| + d && (b == [] ==> ts == end)
  {
    DrainLength(b, ts);
  }

  lemma RepeatStep(t: WireType, n: nat, more: seq<WireType>)
    requires n > 0
    ensures Repeat(t, n) + more == [t] + (Repeat(t, n - 1) + more)
  {
  }

  lemma AlternateStep(k: WireType, t: WireType, n: nat, more: seq<WireType>)
    requires n > 0
    ensures Alternate(k, t, n) + more == [k] + ([t] + (Alternate(k, t, n - 1) + more))
  {
    var rest := Alternate(k, t, n - 1);
    assert [k, t] + rest + more == [k] + ([t] + (rest + more));
  }

  lemma NoneMore(t: WireType, k: WireType, more: seq<WireType>)
    ensures Repeat(t, 0) + more == more && Alternate(k, t, 0) + more == more && [] + more == more
  {
  }

  // ----- skipping

  lemma {:induction false} SkipKeeps(t: WireType, more: seq<WireType>, b: seq<WireType>, d: nat, ts: seq<Token>, end: seq<Token>) returns (b': seq<WireType>)
    requires t != TStop && Ahead([t] + more, b, d, ts, end) && Skip(t, ts).Ok?
    ensures Ahead(more, b', d, Skip(t, ts).value, end)
    decreases |ts|, 1
  {
    hide Ahead, SkipElems, SkipPairs, SkipFields;
    NoneMore(t, t, more);
    match t
    case TStruct => b' := SkipFieldsKeeps(more, b, d, ts, end);
    case TList | TSet =>
      NoStopList(t, more, b, d, ts, end);
      b' := TakeToken(t, more, b, d, ts, end);
      b' := SkipElemsKeeps(ts[0].elem, ts[0].size, more, b', d, ts[1..], end);
    case TMap =>
      NoStopMap(more, b, d, ts, end);
      b' := TakeToken(t, more, b, d, ts, end);
      b' := SkipPairsKeeps(ts[0].key, ts[0].val, ts[0].size, more, b', d, ts[1..], end);
    case _ => b' := TakeToken(t, more, b, d, ts, end);
  }

  /** The stream itself announces no elements of type stop. */
  lemma NoStopList(t: WireType, more: seq<WireType>, b: seq<WireType>, d: nat, ts: seq<Token>, end: seq<Token>)
    requires Ahead([t] + more, b, d, ts, end) && (t == TList || t == TSet) && ts != [] && ts[0].ListHead?
    ensures ts[0].elem != TStop && Opened(t, ts[0]) == Some(Repeat(ts[0].elem, ts[0].size))
  {
    hide Sub;
    SubTail([t] + more, b);
  }

  lemma NoStopMap(more: seq<WireType>, b: seq<WireType>, d: nat, ts: seq<Token>, end: seq<Token>)
    requires Ahead([TMap] + more, b, d, ts, end) && ts != [] && ts[0].MapHead?
    ensures ts[0].key != TStop && ts[0].val != TStop && Opened(TMap, ts[0]) == Some(Alternate(ts[0].key, ts[0].val, ts[0].size))
  {
    hide Sub;
    SubTail([TMap] + more, b);
  }

  lemma {:induction false} SkipFieldsKeeps(more: seq<WireType>, b: seq<WireType>, d: nat, ts: seq<Token>, end: seq<Token>) returns (b': seq<WireType>)
    requires Ahead([TStruct] + more, b, d, ts, end) && SkipFields(ts).Ok?
    ensures Ahead(more, b', d, SkipFields(ts).value, end)
    decreases |ts|, 0
  {
    hide Ahead, Skip;
    b' := TakeToken(TStruct, more, b, d, ts, end);
    if AtStop(ts) {
      NoneMore(TStruct, TStruct, more);
    } else {
      var u := ts[0].ftype;
      assert [u, TStruct] + more == [u] + ([TStruct] + more);
      b' := SkipKeeps(u, [TStruct] + more, b', d, ts[1..], end);
      b' := SkipFieldsKeeps(more, b', d, Skip(u, ts[1..]).value, end);
    }
  }

  lemma {:induction false} SkipElemsKeeps(t: WireType, n: nat, more: seq<WireType>, b: seq<WireType>, d: nat, ts: seq<Token>, end: seq<Token>) returns (b': seq<WireType>)
    requires t != TStop && Ahead(Repeat(t, n) + more, b, d, ts, end) && SkipElems(t, n, ts).Ok?
    ensures Ahead(more, b', d, SkipElems(t, n, ts).value, end)
    decreases |ts|, 2, n
  {
    hide Ahead, Skip, Repeat;
    if n == 0 {
      NoneMore(t, t, more);
      b' := b;
    } else {
      RepeatStep(t, n, more);
      b' := SkipKeeps(t, Repeat(t, n - 1) + more, b, d, ts, end);
      b' := SkipElemsKeeps(t, n - 1, more, b', d, Skip(t, ts).value, end);
    }
  }

  lemma {:induction false} SkipPairsKeeps(k: WireType, t: WireType, n: nat, more: seq<WireType>, b: seq<WireType>, d: nat, ts: seq<Token>, end: seq<Token>) returns (b': seq<WireType>)
    requires k != TStop && t != TStop && Ahead(Alternate(k, t, n) + more, b, d, ts, end) && SkipPairs(k, t, n, ts).Ok?
    ensures Ahead(more, b', d, SkipPairs(k, t, n, ts).value, end)
    decreases |ts|, 2, n
  {
    hide Ahead, Skip, Alternate;
    if n == 0 {
      NoneMore(t, k, more);
      b' := b;
    } else {
      AlternateStep(k, t, n, more);
      b' := SkipKeeps(k, [t] + (Alternate(k, t, n - 1) + more), b, d, ts, end);
      var mid := Skip(k, ts).value;
      b' := SkipKeeps(t, Alternate(k, t, n - 1) + more, b', d, mid, end);
      b' := SkipPairsKeeps(k, t, n - 1, more, b', d, Skip(t, mid).value, end);
    }
  }

  // ----- reading

  /** Reading one value, as any type, leaves the reader at least as far behind. */
  lemma {:induction false} ReadKeeps(s: Schema, t: WireType, info: Info, more: seq<WireType>, b: seq<WireType>, d: nat, ts: seq<Token>, end: seq<Token>) returns (b': seq<WireType>)
    requires Ahead([t] + more, b, d, ts, end) && ReadAny(s, t, info, ts).Ok?
    ensures Ahead(more, b', d, ReadAny(s, t, info, ts).value.1, end)
    decreases |ts|, 1
  {
    hide Ahead, SkipElems, SkipPairs, ReadElems, ReadPairs, ReadFields, ReadUnion, New, Element;
    NoneMore(t, t, more);
    match t
    case TStruct =>
      if s[info.klass].isUnion {
        b' := UnionKeeps(s, info.klass, more, b, d, ts, end);
      } else {
        b' := FieldsKeep(s, info.klass, New(s, info.klass).fields, more, b, d, ts, end);
      }
    case TList | TSet =>
      NoStopList(t, more, b, d, ts, end);
      b' := TakeToken(t, more, b, d, ts, end);
      if Element(info) == None || ts[0].elem != TypeOf(Element(info).value) {
        b' := SkipElemsKeeps(ts[0].elem, ts[0].size, more, b', d, ts[1..], end);
      } else {
        b' := ElemsKeep(s, Element(info).value, ts[0].size, [], more, b', d, ts[1..], end);
      }
    case TMap =>
      NoStopMap(more, b, d, ts, end);
      b' := TakeToken(t, more, b, d, ts, end);
      if !info.MapOf? {
        b' := SkipPairsKeeps(ts[0].key, ts[0].val, ts[0].size, more, b', d, ts[1..], end);
      } else {
        b' := PairsKeep(s, ts[0].key, ts[0].val, info.key, info.elem, ts[0].size, [], more, b', d, ts[1..], end);
      }
    case _ => b' := TakeToken(t, more, b, d, ts, end);
  }

  lemma {:induction false} ElemsKeep(s: Schema, info: Info, n: nat, done: seq<Value>, more: seq<WireType>, b: seq<WireType>, d: nat, ts: seq<Token>, end: seq<Token>) returns (b': seq<WireType>)
    requires Ahead(Repeat(TypeOf(info), n) + more, b, d, ts, end) && ReadElems(s, info, n, done, ts).Ok?
    ensures Ahead(more, b', d, ReadElems(s, info, n, done, ts).value.1, end)
    decreases |ts|, 2, n
  {
    hide Ahead, ReadAny, Repeat, TypeOf;
    if n == 0 {
      NoneMore(TypeOf(info), TypeOf(info), more);
      b' := b;
    } else {
      var t := TypeOf(info);
      RepeatStep(t, n, more);
      b' := ReadKeeps(s, t, info, Repeat(t, n - 1) + more, b, d, ts, end);
      var c := ReadAny(s, t, info, ts).value;
      b' := ElemsKeep(s, info, n - 1, done + [c.0], more, b', d, c.1, end);
    }
  }

  lemma {:induction false} PairsKeep(s: Schema, kt: WireType, vt: WireType, k: Info, e: Info, n: nat, done: seq<(Value, Value)>, more: seq<WireType>, b: seq<WireType>, d: nat, ts: seq<Token>, end: seq<Token>)
    returns (b': seq<WireType>)
    requires Ahead(Alternate(kt, vt, n) + more, b, d, ts, end) && ReadPairs(s, kt, vt, k, e, n, done, ts).Ok?
    ensures Ahead(more, b', d, ReadPairs(s, kt, vt, k, e, n, done, ts).value.1, end)
    decreases |ts|, 2, n
  {
    hide Ahead, ReadAny, Alternate, PutPair;
    if n == 0 {
      NoneMore(vt, kt, more);
      b' := b;
    } else {
      AlternateStep(kt, vt, n, more);
      b' := ReadKeeps(s, kt, k, [vt] + (Alternate(kt, vt, n - 1) + more), b, d, ts, end);
      var q := ReadAny(s, kt, k, ts).value;
      b' := ReadKeeps(s, vt, e, Alternate(kt, vt, n - 1) + more, b', d, q.1, end);
      var c := ReadAny(s, vt, e, q.1).value;
      b' := PairsKeep(s, kt, vt, k, e, n - 1, PutPair(s, done, q.0, c.0), more, b', d, c.1, end);
    }
  }

  lemma {:induction false} FieldsKeep(s: Schema, k: string, fields: map<int, Value>, more: seq<WireType>, b: seq<WireType>, d: nat, ts: seq<Token>, end: seq<Token>) returns (b': seq<WireType>)
    requires k in s && Ahead([TStruct] + more, b, d, ts, end) && ReadFields(s, k, fields, ts).Ok?
    ensures Ahead(more, b', d, ReadFields(s, k, fields, ts).value.1, end)
    decreases |ts|, 0
  {
    hide Ahead, ReadAny, Skip, FieldAt;
    b' := TakeToken(TStruct, more, b, d, ts, end);
    if AtStop(ts) {
      NoneMore(TStruct, TStruct, more);
    } else {
      var u, f := ts[0].ftype, FieldAt(s[k].fields, ts[0].fid);
      assert [u, TStruct] + more == [u] + ([TStruct] + more);
      if f.None? {
        b' := SkipKeeps(u, [TStruct] + more, b', d, ts[1..], end);
        b' := FieldsKeep(s, k, fields, more, b', d, Skip(u, ts[1..]).value, end);
      } else {
        b' := ReadKeeps(s, u, f.value.info, [TStruct] + more, b', d, ts[1..], end);
        var c := ReadAny(s, u, f.value.info, ts[1..]).value;
        b' := FieldsKeep(s, k, if c.0.VNil? then fields else fields[f.value.fid := c.0], more, b', d, c.1, end);
      }
    }
  }

  lemma {:induction false} UnionKeeps(s: Schema, k: string, more: seq<WireType>, b: seq<WireType>, d: nat, ts: seq<Token>, end: seq<Token>) returns (b': seq<WireType>)
    requires k in s && Ahead([TStruct] + more, b, d, ts, end) && ReadUnion(s, k, ts).Ok?
    ensures Ahead(more, b', d, ReadUnion(s, k, ts).value.1, end)
    decreases |ts|, 0
  {
    hide Ahead, ReadAny, Skip, FieldAt;
    b' := TakeToken(TStruct, more, b, d, ts, end);
    NoneMore(TStruct, TStruct, more);
    if !AtStop(ts) {
      var u, f := ts[0].ftype, FieldAt(s[k].fields, ts[0].fid);
      assert [u, TStruct] + more == [u] + ([TStruct] + more);
      if f.None? {
        b' := SkipKeeps(u, [TStruct] + more, b', d, ts[1..], end);
        LeaveOut(more, b', d, Skip(u, ts[1..]).value, end);
      } else {
        b' := ReadKeeps(s, u, f.value.info, [TStruct] + more, b', d, ts[1..], end);
        b' := TakeToken(TStruct, more, b', d, ReadAny(s, u, f.value.info, ts[1..]).value.1, end);
      }
    }
  }

  /** A reader that leaves the end of a struct out is one value further behind. */
  lemma LeaveOut(more: seq<WireType>, b: seq<WireType>, d: nat, ts: seq<Token>, end: seq<Token>)
    requires Ahead([TStruct] + more, b, d, ts, end)
    ensures Ahead(more, b, d + 1, ts, end) && Ahead(more, b, d, ts, end)
  {
    SubTail([TStruct] + more, b);
    assert ([TStruct] + more)[1..] == more;
    SubLater(more, b);
  }
}
