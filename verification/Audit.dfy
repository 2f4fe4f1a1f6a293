/** The schema audit: which changes of a struct it reports as failures. */
module Audits {
  import opened Wrappers
  import opened Wire
  import opened Idl

  /** `compare_type`: by name, and containers by their elements. */
  function CompareType(n: IdlType, o: IdlType): bool {
    if NameOf(n) == "" && NameOf(o) == "" then
      if n.ListType? && o.ListType? then CompareType(n.elem, o.elem)
      else if n.MapType? && o.MapType? then CompareType(n.key, o.key) && CompareType(n.val, o.val)
      else if n.SetType? && o.SetType? then CompareType(n.elem, o.elem)
      else false
    else NameOf(n) == NameOf(o)
  }

  /** A shared field fails when its type changed or when it became or ceased to be required. */
  predicate FieldFails(n: Member, o: Member) {
    !CompareType(n.ftype, o.ftype) || (n.req != Required) != (o.req != Required)
  }

  ghost predicate Sorted(ms: seq<Member>) {
    forall i, j :: 0 <= i < j < |ms| ==> ms[i].key < ms[j].key
  }

  ghost predicate HasKey(ms: seq<Member>, key: int) {
    exists m :: m in ms && m.key == key
  }

  /** An old id is gone, a shared field changed, a new id was slipped in below an old one, or a required field was added. */
  ghost predicate StructFails(ns: seq<Member>, os: seq<Member>) {
    || (exists o :: o in os && !HasKey(ns, o.key))
    || (exists n, o :: n in ns && o in os && n.key == o.key && FieldFails(n, o))
    || (exists n, o :: n in ns && o in os && n.key < o.key && !HasKey(os, n.key))
    || (exists n :: n in ns && !HasKey(os, n.key) && n.req == Required)
  }

  /** What a failure is reported for, with the id of the field. */
  datatype Change =
    | StructMissing
    | FieldRemoved(key: int)
    | FieldInserted(key: int)
    | RequiredAdded(key: int)
    | TypeChanged(key: int)
    | RequirednessChanged(key: int)

  /** One printed failure: the struct and what is wrong with it. */
  datatype Report = Report(name: string, what: Change)

  /** What is reported for a shared field. */
  function FieldReports(name: string, n: Member, o: Member): seq<Report> {
    (if !CompareType(n.ftype, o.ftype) then [Report(name, TypeChanged(n.key))] else []) +
    (if (n.req != Required) != (o.req != Required) then [Report(name, RequirednessChanged(n.key))] else [])
  }

  lemma FieldFailsReports(name: string, n: Member, o: Member)
    ensures FieldFails(n, o) <==> |FieldReports(name, n, o)| > 0
  {
  }

  /** What the two-pointer merge reports on what remains of the two lists. */
  function MergeReports(name: string, ns: seq<Member>, os: seq<Member>): seq<Report>
    decreases |ns| + |os|
  {
    if ns == [] && os == [] then []
    else if ns == [] then [Report(name, FieldRemoved(os[0].key))] + MergeReports(name, ns, os[1..])
    else if os == [] then
      (if ns[0].req == Required then [Report(name, RequiredAdded(ns[0].key))] else []) + MergeReports(name, ns[1..], os)
    else if ns[0].key == os[0].key then FieldReports(name, ns[0], os[0]) + MergeReports(name, ns[1..], os[1..])
    else if ns[0].key < os[0].key then [Report(name, FieldInserted(ns[0].key))] + MergeReports(name, ns[1..], os)
    else [Report(name, FieldRemoved(os[0].key))] + MergeReports(name, ns, os[1..])
  }

  /** One step of the merge at the positions i and j. */
  lemma MergeStep(name: string, ns: seq<Member>, os: seq<Member>, i: nat, j: nat)
    requires i <= |ns| && j <= |os|
    ensures var all := MergeReports(name, ns[i..], os[j..]);
            if i == |ns| && j == |os| then all == []
            else if i == |ns| || (j < |os| && os[j].key < ns[i].key) then
              all == [Report(name, FieldRemoved(os[j].key))] + MergeReports(name, ns[i..], os[j + 1..])
            else if j == |os| then
              all == (if ns[i].req == Required then [Report(name, RequiredAdded(ns[i].key))] else []) + MergeReports(name, ns[i + 1..], os[j..])
            else if ns[i].key == os[j].key then all == FieldReports(name, ns[i], os[j]) + MergeReports(name, ns[i + 1..], os[j + 1..])
            else all == [Report(name, FieldInserted(ns[i].key))] + MergeReports(name, ns[i + 1..], os[j..])
  {
    hide FieldReports;
    var a, b := ns[i..], os[j..];
    assert i < |ns| ==> a[1..] == ns[i + 1..];
    assert j < |os| ==> b[1..] == os[j + 1..];
  }

  /** The change c took place between two lists of fields: a new id is inserted when an old one lies above it. */
  ghost predicate Happened(c: Change, ns: seq<Member>, os: seq<Member>) {
    match c
    case StructMissing => false
    case FieldRemoved(k) => HasKey(os, k) && !HasKey(ns, k)
    case FieldInserted(k) => HasKey(ns, k) && !HasKey(os, k) && exists o :: o in os && k < o.key
    case RequiredAdded(k) => !HasKey(os, k) && (exists n :: n in ns && n.key == k && n.req == Required) && forall o :: o in os ==> o.key < k
    case TypeChanged(k) => exists n, o :: n in ns && o in os && n.key == k == o.key && !CompareType(n.ftype, o.ftype)
    case RequirednessChanged(k) => exists n, o :: n in ns && o in os && n.key == k == o.key && (n.req == Required) != (o.req == Required)
  }

  lemma SortedRest(ms: seq<Member>)
    requires Sorted(ms) && ms != []
    ensures Sorted(ms[1..]) && (forall m :: m in ms[1..] ==> ms[0].key < m.key) && forall m :: m in ms <==> m == ms[0] || m in ms[1..]
  {
    assert ms == [ms[0]] + ms[1..];
  }

  lemma KeyRest(ms: seq<Member>, key: int)
    requires Sorted(ms) && ms != []
    ensures HasKey(ms, key) <==> key == ms[0].key || HasKey(ms[1..], key)
  {
    SortedRest(ms);
  }

  /** The merge reports something exactly for these changes. */
  lemma {:induction false} MergeIff(name: string, ns: seq<Member>, os: seq<Member>)
    requires Sorted(ns) && Sorted(os)
    ensures MergeReports(name, ns, os) != [] <==> StructFails(ns, os)
    decreases |ns| + |os|
  {
    if ns == [] {
      NothingNew(os);
    } else if os == [] {
      SortedRest(ns);
      MergeIff(name, ns[1..], os);
      NothingOld(ns);
    } else if ns[0].key == os[0].key {
      SortedRest(ns);
      SortedRest(os);
      MergeIff(name, ns[1..], os[1..]);
      SharedFirst(ns, os);
    } else {
      SortedRest(ns);
      SortedRest(os);
      UnsharedFirst(ns, os);
    }
  }

  lemma NothingNew(os: seq<Member>)
    ensures StructFails([], os) <==> os != []
  {
    if os != [] {
      assert os[0] in os && !HasKey([], os[0].key);
    }
  }

  lemma NothingOld(ns: seq<Member>)
    requires ns != [] && Sorted(ns)
    ensures StructFails(ns, []) <==> ns[0].req == Required || StructFails(ns[1..], [])
  {
    hide FieldFails;
    SortedRest(ns);
    assert forall key :: !HasKey([], key);
  }

  lemma UnsharedFirst(ns: seq<Member>, os: seq<Member>)
    requires Sorted(ns) && Sorted(os) && ns != [] && os != [] && ns[0].key != os[0].key
    ensures StructFails(ns, os)
  {
    hide FieldFails;
    SortedRest(ns);
    SortedRest(os);
    if ns[0].key < os[0].key {
      assert !HasKey(os, ns[0].key);
    } else {
      assert !HasKey(ns, os[0].key);
    }
  }

  lemma SharedFirst(ns: seq<Member>, os: seq<Member>)
    requires Sorted(ns) && Sorted(os) && ns != [] && os != [] && ns[0].key == os[0].key
    ensures StructFails(ns, os) <==> FieldFails(ns[0], os[0]) || StructFails(ns[1..], os[1..])
  {
    hide FieldFails, StructFails;
    SharedBack(ns, os);
    if StructFails(ns, os) {
      SharedOn(ns, os);
    }
  }

  lemma SharedBack(ns: seq<Member>, os: seq<Member>)
    requires Sorted(ns) && Sorted(os) && ns != [] && os != [] && ns[0].key == os[0].key
    ensures FieldFails(ns[0], os[0]) || StructFails(ns[1..], os[1..]) ==> StructFails(ns, os)
  {
    hide FieldFails, Sorted, HasKey;
    SortedRest(ns);
    SortedRest(os);
    forall key
      ensures HasKey(ns, key) <==> key == ns[0].key || HasKey(ns[1..], key)
      ensures HasKey(os, key) <==> key == os[0].key || HasKey(os[1..], key)
    {
      KeyRest(ns, key);
      KeyRest(os, key);
    }
  }

  lemma SharedOn(ns: seq<Member>, os: seq<Member>)
    requires Sorted(ns) && Sorted(os) && ns != [] && os != [] && ns[0].key == os[0].key && StructFails(ns, os)
    ensures FieldFails(ns[0], os[0]) || StructFails(ns[1..], os[1..])
  {
    hide FieldFails, Sorted, HasKey;
    SortedRest(ns);
    SortedRest(os);
    forall key
      ensures HasKey(ns, key) <==> key == ns[0].key || HasKey(ns[1..], key)
      ensures HasKey(os, key) <==> key == os[0].key || HasKey(os[1..], key)
    {
      KeyRest(ns, key);
      KeyRest(os, key);
    }
  }

  /** Every change is reported as what it is, and nothing else is. */
  lemma {:induction false} ReportsIff(name: string, ns: seq<Member>, os: seq<Member>, r: Report)
    requires Sorted(ns) && Sorted(os)
    ensures r in MergeReports(name, ns, os) <==> r.name == name && Happened(r.what, ns, os)
    decreases |ns| + |os|
  {
    hide CompareType, Sorted, Happened;
    if ns != [] {
      SortedRest(ns);
    }
    if os != [] {
      SortedRest(os);
    }
    if ns == [] && os == [] {
      NothingHappened(r.what);
    } else if os != [] && (ns == [] || os[0].key < ns[0].key) {
      ReportsIff(name, ns, os[1..], r);
      RemovedFirst(r.what, ns, os);
    } else if os == [] || ns[0].key < os[0].key {
      ReportsIff(name, ns[1..], os, r);
      AddedFirst(r.what, ns, os);
    } else {
      ReportsIff(name, ns[1..], os[1..], r);
      ChangedFirst(r.what, name, ns, os);
    }
  }

  lemma NothingHappened(c: Change)
    ensures !Happened(c, [], [])
  {
    assert forall key :: !HasKey([], key);
  }

  lemma RemovedFirst(c: Change, ns: seq<Member>, os: seq<Member>)
    requires Sorted(ns) && Sorted(os) && os != [] && (ns == [] || os[0].key < ns[0].key)
    ensures Happened(c, ns, os) <==> c == FieldRemoved(os[0].key) || Happened(c, ns, os[1..])
  {
    hide CompareType;
    KeysRest(os);
    SortedRest(os);
    if ns != [] {
      SortedRest(ns);
    }
  }

  lemma AddedFirst(c: Change, ns: seq<Member>, os: seq<Member>)
    requires Sorted(ns) && Sorted(os) && ns != [] && (os == [] || ns[0].key < os[0].key)
    ensures Happened(c, ns, os) <==>
              (if os != [] then c == FieldInserted(ns[0].key) else ns[0].req == Required && c == RequiredAdded(ns[0].key)) ||
              Happened(c, ns[1..], os)
  {
    hide CompareType;
    KeysRest(ns);
    SortedRest(ns);
    if os != [] {
      SortedRest(os);
    }
  }

  lemma ChangedFirst(c: Change, name: string, ns: seq<Member>, os: seq<Member>)
    requires Sorted(ns) && Sorted(os) && ns != [] && os != [] && ns[0].key == os[0].key
    ensures Happened(c, ns, os) <==> Report(name, c) in FieldReports(name, ns[0], os[0]) || Happened(c, ns[1..], os[1..])
  {
    hide CompareType, Sorted;
    SortedRest(ns);
    SortedRest(os);
    if !c.TypeChanged? && !c.RequirednessChanged? {
      KeysRest(ns);
      KeysRest(os);
    } else if c.key == ns[0].key {
      assert Happened(c, ns, os) <==> Report(name, c) in FieldReports(name, ns[0], os[0]);
    }
  }

  lemma KeysRest(ms: seq<Member>)
    requires Sorted(ms) && ms != []
    ensures forall key :: HasKey(ms, key) <==> key == ms[0].key || HasKey(ms[1..], key)
    ensures forall key :: HasKey(ms[1..], key) ==> ms[0].key < key
  {
    SortedRest(ms);
    forall key
      ensures HasKey(ms, key) <==> key == ms[0].key || HasKey(ms[1..], key)
    {
      KeyRest(ms, key);
    }
  }

  // ----- lists of structs

  /** The last struct of a name, as the map built from the list holds it. */
  function Latest(ds: seq<StructDecl>, name: string): (r: Option<StructDecl>)
    ensures r.Some? ==> r.value in ds && r.value.name == name
    ensures r.None? ==> forall d :: d in ds ==> d.name != name
  {
    if ds == [] then None
    else if ds[|ds| - 1].name == name then Some(ds[|ds| - 1])
    else
      assert ds == ds[..|ds| - 1] + [ds[|ds| - 1]];
      Latest(ds[..|ds| - 1], name)
  }

  /** No later struct has the name. */
  lemma {:induction false} LatestIsLast(ds: seq<StructDecl>, name: string, i: nat)
    requires i < |ds| && ds[i].name == name && forall j :: i < j < |ds| ==> ds[j].name != name
    ensures Latest(ds, name) == Some(ds[i])
  {
    if i < |ds| - 1 {
      LatestIsLast(ds[..|ds| - 1], name, i);
    }
  }

  ghost predicate PairFails(news: seq<StructDecl>, o: StructDecl) {
    var n := Latest(news, o.name);
    n.None? || StructFails(n.value.fields, o.fields)
  }

  /** Some old struct is gone or fails against its new form. */
  ghost predicate AuditFails(news: seq<StructDecl>, olds: seq<StructDecl>) {
    exists o :: o in olds && PairFails(news, o)
  }

  function PairReports(news: seq<StructDecl>, o: StructDecl): seq<Report> {
    var n := Latest(news, o.name);
    if n.None? then [Report(o.name, StructMissing)] else MergeReports(o.name, n.value.fields, o.fields)
  }

  /** What is reported for the old structs in their order. */
  function AuditReports(news: seq<StructDecl>, olds: seq<StructDecl>): seq<Report> {
    if olds == [] then [] else AuditReports(news, olds[..|olds| - 1]) + PairReports(news, olds[|olds| - 1])
  }

  /** The audit reports exactly the old structs that are missing and the changes of the others. */
  lemma {:induction false} AuditReportsIff(news: seq<StructDecl>, olds: seq<StructDecl>, r: Report)
    requires forall d :: d in news || d in olds ==> Sorted(d.fields)
    ensures r in AuditReports(news, olds) <==> exists o :: o in olds && r.name == o.name && Spotted(r.what, news, o)
  {
    hide Sorted, Spotted, PairReports;
    if olds != [] {
      var rest, o := olds[..|olds| - 1], olds[|olds| - 1];
      assert olds == rest + [o];
      AuditReportsIff(news, rest, r);
      PairReportsIff(news, o, r);
    }
  }

  /** The old struct o is missing, or the change took place in it. */
  ghost predicate Spotted(c: Change, news: seq<StructDecl>, o: StructDecl) {
    var n := Latest(news, o.name);
    if n.None? then c == StructMissing else Happened(c, n.value.fields, o.fields)
  }

  lemma PairReportsIff(news: seq<StructDecl>, o: StructDecl, r: Report)
    requires Sorted(o.fields) && forall d :: d in news ==> Sorted(d.fields)
    ensures r in PairReports(news, o) <==> r.name == o.name && Spotted(r.what, news, o)
  {
    hide Sorted, Happened, MergeReports;
    var n := Latest(news, o.name);
    if n.Some? {
      ReportsIff(o.name, n.value.fields, o.fields, r);
    }
  }

  /** An audit fails exactly when it reports something. */
  lemma {:induction false} FailsReported(news: seq<StructDecl>, olds: seq<StructDecl>)
    requires forall d :: d in news || d in olds ==> Sorted(d.fields)
    ensures AuditFails(news, olds) <==> AuditReports(news, olds) != []
  {
    hide Sorted, PairFails, PairReports;
    if olds != [] {
      var rest, o := olds[..|olds| - 1], olds[|olds| - 1];
      assert olds == rest + [o];
      FailsReported(news, rest);
      PairReported(news, o);
      assert AuditFails(news, olds) <==> AuditFails(news, rest) || PairFails(news, o);
    }
  }

  lemma PairReported(news: seq<StructDecl>, o: StructDecl)
    requires Sorted(o.fields) && forall d :: d in news ==> Sorted(d.fields)
    ensures PairFails(news, o) <==> PairReports(news, o) != []
  {
    hide Sorted, StructFails, MergeReports;
    var n := Latest(news, o.name);
    if n.Some? {
      MergeIff(o.name, n.value.fields, o.fields);
    }
  }

  lemma NoReports(news: seq<StructDecl>, olds: seq<StructDecl>)
    ensures AuditReports(news, olds[..0]) == []
  {
  }

  lemma AuditReportsStep(news: seq<StructDecl>, olds: seq<StructDecl>, i: nat)
    requires i < |olds|
    ensures AuditReports(news, olds[..i + 1]) == AuditReports(news, olds[..i]) + PairReports(news, olds[i])
  {
    hide PairReports;
    assert olds[..i + 1][..i] == olds[..i];
  }

  ghost function Fields(ss: seq<TStruct>): set<TField>
    reads ss
  {
    set s, f | s in ss && f in s.inIdOrder :: f
  }

  ghost function Views(ss: seq<TStruct>): (r: seq<StructDecl>)
    reads ss, Fields(ss)
    ensures |r| == |ss|
  {
    seq(|ss|, i requires 0 <= i < |ss| reads ss, Fields(ss) =>
      assert ss[i] in ss;
      assert forall f :: f in ss[i].inIdOrder ==> f in Fields(ss);
      ss[i].View())
  }

  lemma ViewSorted(s: TStruct)
    requires s.Valid()
    ensures Sorted(s.View().fields)
  {
  }

  twostate lemma ViewsKept(ss: seq<TStruct>)
    requires forall s :: s in ss ==> s.View() == old(s.View())
    ensures Views(ss) == old(Views(ss))
  {
  }

  /** The last struct of a name. */
  function LastNamed(ss: seq<TStruct>, name: string): (r: TStruct?)
    reads ss
    ensures r != null ==> r in ss
  {
    if ss == [] then null
    else if ss[|ss| - 1].name == name then ss[|ss| - 1]
    else
      LastNamed(ss[..|ss| - 1], name)
  }

  lemma {:induction false} LastNamedLatest(ss: seq<TStruct>, name: string)
    ensures var r := LastNamed(ss, name); Latest(Views(ss), name) == if r == null then None else Some(r.View())
  {
    if ss != [] {
      var n := |ss| - 1;
      assert Views(ss)[n].name == ss[n].name;
      assert Views(ss)[..n] == Views(ss[..n]);
      LastNamedLatest(ss[..n], name);
    }
  }

  lemma LastNamedStep(ss: seq<TStruct>, i: nat, name: string)
    requires i < |ss|
    ensures LastNamed(ss[..i + 1], name) == if ss[i].name == name then ss[i] else LastNamed(ss[..i], name)
  {
    assert ss[..i + 1][..i] == ss[..i];
  }

  class Auditor {
    /** The global that makes the compiler return a failure. */
    var failed: bool

    /** The failures printed so far. */
    var reports: seq<Report>

    constructor ()
      ensures !failed && reports == []
    {
      failed, reports := false, [];
    }

    /** `thrift_audit_failure`. */
    method Fail(name: string, what: Change)
      modifies this
      ensures failed && reports == old(reports) + [Report(name, what)]
    {
      reports := reports + [Report(name, what)];
      failed := true;
    }

    /** `compare_struct_field`. */
    method CompareStructField(n: TField, o: TField, name: string)
      modifies this
      ensures failed == (old(failed) || FieldFails(n.View(), o.View()))
      ensures reports == old(reports) + FieldReports(name, n.View(), o.View())
    {
      if !CompareType(n.ftype, o.ftype) {
        Fail(name, TypeChanged(n.key));
      }
      var newOptional := n.req != Required;
      var oldOptional := o.req != Required;
      if newOptional != oldOptional {
        Fail(name, RequirednessChanged(n.key));
      }
    }

    lemma Regroup(a: seq<Report>, b: seq<Report>, c: seq<Report>)
      ensures (a + b) + c == a + (b + c)
    {
    }

    /** `compare_single_struct`: one pass over both lists in id order. */
    method CompareSingleStruct(newStruct: TStruct, oldStruct: TStruct)
      requires newStruct.Valid() && oldStruct.Valid()
      modifies this
      ensures failed == (old(failed) || StructFails(newStruct.View().fields, oldStruct.View().fields))
      ensures reports == old(reports) + MergeReports(oldStruct.name, newStruct.View().fields, oldStruct.View().fields)
    {
      hide FieldFails, StructFails, Sorted, FieldReports, CompareType, MergeReports;
      ghost var ns, os := newStruct.View().fields, oldStruct.View().fields;
      var structName := oldStruct.name;
      ghost var all := MergeReports(structName, ns, os);
      var i, j: nat := 0, 0;
      assert ns[0..] == ns && os[0..] == os;
      while !(j == |oldStruct.inIdOrder| && i == |newStruct.inIdOrder|)
        invariant 0 <= i <= |newStruct.inIdOrder| && j <= |oldStruct.inIdOrder|
        invariant reports + MergeReports(structName, ns[i..], os[j..]) == old(reports) + all
        invariant |reports| >= |old(reports)| && (failed <==> old(failed) || |reports| > |old(reports)|)
        decreases |ns| - i + |os| - j
      {
        ghost var before := reports;
        MergeStep(structName, ns, os, i, j);
        if i == |newStruct.inIdOrder| {
          Fail(structName, FieldRemoved(oldStruct.inIdOrder[j].key));
          j := j + 1;
        } else if j == |oldStruct.inIdOrder| {
          if newStruct.inIdOrder[i].req == Required {
            Fail(structName, RequiredAdded(newStruct.inIdOrder[i].key));
          }
          i := i + 1;
        } else if newStruct.inIdOrder[i].key == oldStruct.inIdOrder[j].key {
          FieldFailsReports(structName, newStruct.inIdOrder[i].View(), oldStruct.inIdOrder[j].View());
          CompareStructField(newStruct.inIdOrder[i], oldStruct.inIdOrder[j], structName);
          i, j := i + 1, j + 1;
        } else if newStruct.inIdOrder[i].key < oldStruct.inIdOrder[j].key {
          Fail(structName, FieldInserted(newStruct.inIdOrder[i].key));
          i := i + 1;
        } else {
          Fail(structName, FieldRemoved(oldStruct.inIdOrder[j].key));
          j := j + 1;
        }
        assert reports == before + reports[|before|..];
        Regroup(before, reports[|before|..], MergeReports(structName, ns[i..], os[j..]));
      }
      MergeStep(structName, ns, os, i, j);
      ViewSorted(newStruct);
      ViewSorted(oldStruct);
      MergeIff(structName, ns, os);
    }

    /** The map gives the last struct of the name k. */
    static ghost predicate Holds(m: map<string, TStruct>, ss: seq<TStruct>, k: string)
      reads ss
    {
      if k in m then LastNamed(ss, k) == m[k] else LastNamed(ss, k) == null
    }

    method IndexByName(news: seq<TStruct>) returns (newMap: map<string, TStruct>)
      ensures forall k :: Holds(newMap, news, k)
    {
      hide LastNamed;
      newMap := map[];
      NoneNamed(news);
      for i := 0 to |news|
        invariant forall k :: Holds(newMap, news[..i], k)
      {
        ghost var before := newMap;
        newMap := newMap[news[i].name := news[i]];
        ghost var done := news[..i + 1];
        forall k: string
          ensures Holds(newMap, done, k)
        {
          LastNamedStep(news, i, k);
          assert Holds(before, news[..i], k);
        }
      }
      assert news[..|news|] == news;
    }

    lemma NoneNamed(news: seq<TStruct>)
      ensures forall k :: LastNamed(news[..0], k) == null
    {
    }

    /** The body of the loop of `compare_structs`. */
    method CompareWith(newMap: map<string, TStruct>, o: TStruct, ghost news: seq<TStruct>)
      requires o.Valid() && forall s :: s in news ==> s.Valid()
      requires forall k :: Holds(newMap, news, k)
      modifies this
      ensures failed == (old(failed) || old(PairFails(Views(news), o.View())))
      ensures reports == old(reports) + old(PairReports(Views(news), o.View()))
    {
      hide StructFails, LastNamed, Views, PairFails, PairReports, MergeReports;
      assert Holds(newMap, news, o.name);
      PairOf(news, o);
      if o.name !in newMap {
        Fail(o.name, StructMissing);
      } else {
        CompareSingleStruct(newMap[o.name], o);
      }
    }

    /** `compare_structs`. */
    method CompareStructs(news: seq<TStruct>, olds: seq<TStruct>)
      requires forall s :: s in news || s in olds ==> s.Valid()
      modifies this
      ensures failed == (old(failed) || AuditFails(Views(news), Views(olds)))
      ensures reports == old(reports) + AuditReports(Views(news), Views(olds))
    {
      hide StructFails, LastNamed, Views, PairFails, PairReports, AuditReports;
      var newMap := IndexByName(news);
      ghost var nv, ov := Views(news), Views(olds);
      assert |ov| == |olds|;
      NoReports(nv, ov);
      for i := 0 to |olds|
        invariant Views(news) == nv && Views(olds) == ov
        invariant failed <==> old(failed) || exists j :: 0 <= j < i && PairFails(nv, ov[j])
        invariant reports == old(reports) + AuditReports(nv, ov[..i])
      {
        label Before:
        ViewAt(olds, i);
        CompareWith(newMap, olds[i], news);
        AuditReportsStep(nv, ov, i);
        ViewsKept@Before(news);
        ViewsKept@Before(olds);
      }
      assert ov[..|olds|] == ov;
    }

    lemma ViewAt(ss: seq<TStruct>, i: nat)
      requires i < |ss|
      ensures |Views(ss)| == |ss| && Views(ss)[i] == ss[i].View()
    {
    }

    lemma PairOf(news: seq<TStruct>, o: TStruct)
      ensures var n := LastNamed(news, o.name);
              && (PairFails(Views(news), o.View()) <==> n == null || StructFails(n.View().fields, o.View().fields))
              && PairReports(Views(news), o.View()) ==
                 if n == null then [Report(o.name, StructMissing)] else MergeReports(o.name, n.View().fields, o.View().fields)
    {
      hide StructFails, MergeReports;
      LastNamedLatest(news, o.name);
    }
  }
}
