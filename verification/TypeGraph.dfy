/** The record graph of the ABI generator: recursive registration of records, the dependencies it
    records on the way, and their depth-first order. */
module TypeGraph {
  import opened Common

  /** Records are numbered in the order of their emitted names. */
  type Name = nat

  /** A field type, as far as registration recurses through it. */
  datatype FieldType =
    | Builtin
    | Record(name: Name)
    | Pointer(pointee: FieldType)
    | ArrayOf(element: FieldType)
    | Template(argument: FieldType)

  datatype Member = Base(name: Name) | Field(fieldType: FieldType)

  /** The definitions that the translation unit offers; the templates with built-in emission are
      never registered. */
  datatype Declarations = Declarations(members: map<Name, seq<Member>>, templates: set<Name>)

  function RecordOf(fieldType: FieldType): Option<Name> {
    match fieldType
    case Builtin => None
    case Record(name) => Some(name)
    case Pointer(t) => RecordOf(t)
    case ArrayOf(t) => RecordOf(t)
    case Template(t) => RecordOf(t)
  }

  function Size(fieldType: FieldType): nat {
    match fieldType
    case Pointer(t) => 1 + Size(t)
    case ArrayOf(t) => 1 + Size(t)
    case Template(t) => 1 + Size(t)
    case _ => 0
  }

  /** a stands before b in a list. */
  ghost predicate Precedes(names: seq<Name>, a: Name, b: Name) {
    exists i, j :: 0 <= i < j < |names| && names[i] == a && names[j] == b
  }

  lemma {:induction false} PrecedesInLonger(names: seq<Name>, longer: seq<Name>, a: Name, b: Name)
    requires names <= longer && Precedes(names, a, b)
    ensures Precedes(longer, a, b)
  {
    var i, j :| 0 <= i < j < |names| && names[i] == a && names[j] == b;
    assert longer[i] == a && longer[j] == b;
  }

  lemma {:induction false} PrecedesInShorter(names: seq<Name>, longer: seq<Name>, a: Name, b: Name)
    requires names <= longer && NoRepeats(longer) && Precedes(longer, a, b) && a in names && b in names
    ensures Precedes(names, a, b)
  {
    var i, j :| 0 <= i < j < |longer| && longer[i] == a && longer[j] == b;
    var k, l :| 0 <= k < |names| && names[k] == a && 0 <= l < |names| && names[l] == b;
    assert longer[k] == a && longer[l] == b;
  }

  /** A name and everything that a list holds behind it. */
  ghost function Onwards(names: seq<Name>, n: Name): set<Name> {
    set x | x in names && (x == n || Precedes(names, n, x))
  }

  lemma {:induction false} OnwardsInLonger(names: seq<Name>, longer: seq<Name>, n: Name)
    requires names <= longer
    ensures Onwards(names, n) <= Onwards(longer, n)
  {
    forall x | x in Onwards(names, n)
      ensures x in Onwards(longer, n)
    {
      if x != n {
        PrecedesInLonger(names, longer, n, x);
      }
    }
  }

  lemma {:induction false} OnwardsNested(names: seq<Name>, a: Name, b: Name)
    requires NoRepeats(names) && b in Onwards(names, a)
    ensures Onwards(names, b) <= Onwards(names, a)
  {
    forall x | x in Onwards(names, b) && x != b && a != b
      ensures Precedes(names, a, x)
    {
      var i, j :| 0 <= i < j < |names| && names[i] == a && names[j] == b;
      var k, l :| 0 <= k < l < |names| && names[k] == b && names[l] == x;
      assert names[i] == a && names[l] == x;
    }
  }

  // ----- Graphs

  type Graph = map<Name, set<Name>>

  function Deps(g: Graph, n: Name): set<Name> {
    if n in g then g[n] else {}
  }

  ghost predicate IsPath(g: Graph, p: seq<Name>) {
    p != [] && (|p| > 1 ==> p[1] in Deps(g, p[0]) && IsPath(g, p[1..]))
  }

  ghost predicate HasCycle(g: Graph) {
    exists p :: IsPath(g, p) && |p| > 1 && p[0] == p[|p| - 1]
  }

  ghost predicate IsPathTo(g: Graph, p: seq<Name>, a: Name, b: Name) {
    IsPath(g, p) && p[0] == a && p[|p| - 1] == b
  }

  /** A path, possibly without edges, leads from a to b. */
  ghost predicate Reaches(g: Graph, a: Name, b: Name) {
    exists p :: IsPathTo(g, p, a, b)
  }

  lemma {:induction false} ReachesItself(g: Graph, a: Name)
    ensures Reaches(g, a, a)
  {
    assert IsPathTo(g, [a], a, a);
  }

  lemma {:induction false} StepReaches(g: Graph, a: Name, b: Name, c: Name)
    requires b in Deps(g, a) && Reaches(g, b, c)
    ensures Reaches(g, a, c)
  {
    var p :| IsPathTo(g, p, b, c);
    assert ([a] + p)[1..] == p;
    assert IsPathTo(g, [a] + p, a, c);
  }

  lemma {:induction false} EdgeReaches(g: Graph, a: Name, b: Name)
    requires b in Deps(g, a)
    ensures Reaches(g, a, b)
  {
    ReachesItself(g, b);
    StepReaches(g, a, b, b);
  }

  lemma {:induction false} PathReaches(g: Graph, p: seq<Name>, c: Name)
    requires IsPath(g, p) && Reaches(g, p[|p| - 1], c)
    ensures Reaches(g, p[0], c)
  {
    if |p| > 1 {
      PathReaches(g, p[1..], c);
      StepReaches(g, p[0], p[1], c);
    }
  }

  lemma {:induction false} ReachesFurther(g: Graph, a: Name, b: Name, c: Name)
    requires Reaches(g, a, b) && Reaches(g, b, c)
    ensures Reaches(g, a, c)
  {
    var p :| IsPathTo(g, p, a, b);
    PathReaches(g, p, c);
  }

  ghost predicate Extends(g: Graph, h: Graph) {
    forall n :: Deps(g, n) <= Deps(h, n)
  }

  lemma {:induction false} PathStays(g: Graph, h: Graph, p: seq<Name>)
    requires Extends(g, h) && IsPath(g, p)
    ensures IsPath(h, p)
  {
    if |p| > 1 {
      assert Deps(g, p[0]) <= Deps(h, p[0]);
      PathStays(g, h, p[1..]);
    }
  }

  lemma {:induction false} ReachesStays(g: Graph, h: Graph, a: Name, b: Name)
    requires Extends(g, h) && Reaches(g, a, b)
    ensures Reaches(h, a, b)
  {
    var p :| IsPathTo(g, p, a, b);
    PathStays(g, h, p);
    assert IsPathTo(h, p, a, b);
  }

  /** The part of a graph between the names of a set. */
  ghost function Restrict(g: Graph, names: set<Name>): Graph {
    map n | n in g && n in names :: g[n] * names
  }

  lemma {:induction false} EdgeCloses(g: Graph, a: Name, b: Name)
    requires b in Deps(g, a) && Reaches(g, b, a)
    ensures HasCycle(g)
  {
    var p :| IsPathTo(g, p, b, a);
    var whole := [a] + p;
    assert whole[1..] == p;
    assert IsPath(g, whole) && |whole| > 1 && whole[0] == whole[|whole| - 1];
  }

  // ----- Registration

  /** The record that a member refers to; built-in templates and undefined bases do not count. */
  function Target(d: Declarations, m: Member): Option<Name> {
    match m
    case Base(b) => if b in d.members && b !in d.templates then Some(b) else None
    case Field(t) => if RecordOf(t).Some? && RecordOf(t).value !in d.templates then RecordOf(t) else None
  }

  /** The reference graph of the declarations, pointers included. */
  ghost function References(d: Declarations): Graph {
    map n | n in d.members :: set m | m in d.members[n] && Target(d, m).Some? :: Target(d, m).value
  }

  lemma {:induction false} MemberRefers(d: Declarations, n: Name, m: Member)
    requires n in d.members && m in d.members[n] && Target(d, m).Some?
    ensures Target(d, m).value in Deps(References(d), n)
  {
  }

  /** The references between a record and those registered after it. */
  ghost function Newer(d: Declarations, records: seq<Name>, n: Name): Graph {
    Restrict(References(d), Onwards(records, n))
  }

  lemma {:induction false} NewerGrows(d: Declarations, records: seq<Name>, longer: seq<Name>, a: Name, b: Name)
    requires records <= longer && NoRepeats(longer) && b in Onwards(longer, a)
    ensures Extends(Newer(d, records, b), Newer(d, longer, a))
  {
    OnwardsInLonger(records, longer, b);
    OnwardsNested(longer, a, b);
  }

  lemma {:induction false} NewerRefers(d: Declarations, records: seq<Name>, from: Name, n: Name, m: Member)
    requires n in d.members && m in d.members[n] && Target(d, m).Some?
    requires n in Onwards(records, from) && Target(d, m).value in Onwards(records, from)
    ensures Target(d, m).value in Deps(Newer(d, records, from), n)
  {
    MemberRefers(d, n, m);
  }

  // ----- What has to be defined

  /** Under pointers, arrays and templates stands this record. */
  ghost predicate Names(t: FieldType, n: Name) {
    exists layers :: IsLayers(layers, t, n)
  }

  ghost predicate IsLayers(layers: seq<FieldType>, t: FieldType, n: Name) {
    && layers != [] && layers[0] == t && layers[|layers| - 1] == Record(n)
    && forall i :: 0 <= i < |layers| - 1 ==>
         layers[i] in {Pointer(layers[i + 1]), ArrayOf(layers[i + 1]), Template(layers[i + 1])}
  }

  lemma {:induction false} NamesIsRecordOf(t: FieldType, n: Name)
    ensures Names(t, n) <==> RecordOf(t) == Some(n)
  {
    if layers :| IsLayers(layers, t, n) {
      LayersEnd(layers, t, n);
    }
    if RecordOf(t) == Some(n) {
      LayersOf(t, n);
    }
  }

  lemma {:induction false} LayersEnd(layers: seq<FieldType>, t: FieldType, n: Name)
    requires IsLayers(layers, t, n)
    ensures RecordOf(t) == Some(n)
  {
    if |layers| > 1 {
      LayersEnd(layers[1..], layers[1], n);
    }
  }

  lemma {:induction false} LayersOf(t: FieldType, n: Name)
    requires RecordOf(t) == Some(n)
    ensures Names(t, n)
  {
    if t.Record? {
      assert IsLayers([t], t, n);
    } else {
      var inner := match t case Pointer(x) => x case ArrayOf(x) => x case Template(x) => x;
      LayersOf(inner, n);
      var layers :| IsLayers(layers, inner, n);
      assert IsLayers([t] + layers, t, n);
    }
  }

  /** A declaration leads on to a base that is defined, and to the record inside a field; nothing is looked up
      in a built-in template. */
  ghost predicate Declares(d: Declarations, n: Name, x: Name) {
    && n in d.members && n !in d.templates
    && ((Base(x) in d.members[n] && x in d.members) || exists t :: Field(t) in d.members[n] && Names(t, x))
  }

  ghost predicate IsDeclaredPath(d: Declarations, p: seq<Name>) {
    p != [] && forall i :: 0 <= i < |p| - 1 ==> Declares(d, p[i], p[i + 1])
  }

  /** Declarations lead from a name to a record without a definition. */
  ghost predicate LeadsToUndefined(d: Declarations, n: Name) {
    exists p :: IsDeclaredPath(d, p) && p[0] == n && Undefined(d, p[|p| - 1])
  }

  predicate Undefined(d: Declarations, n: Name) {
    n !in d.members && n !in d.templates
  }

  lemma {:induction false} UndefinedItself(d: Declarations, n: Name)
    requires Undefined(d, n)
    ensures LeadsToUndefined(d, n)
  {
    assert IsDeclaredPath(d, [n]) && [n][|[n]| - 1] == n;
  }

  lemma {:induction false} UndefinedBehind(d: Declarations, n: Name, x: Name)
    requires Declares(d, n, x) && LeadsToUndefined(d, x)
    ensures LeadsToUndefined(d, n)
  {
    var p :| IsDeclaredPath(d, p) && p[0] == x && Undefined(d, p[|p| - 1]);
    var q := [n] + p;
    forall i | 0 <= i < |q| - 1
      ensures Declares(d, q[i], q[i + 1])
    {
      if i > 0 {
        assert q[i] == p[i - 1] && q[i + 1] == p[i];
      }
    }
    assert IsDeclaredPath(d, q) && q[0] == n && q[|q| - 1] == p[|p| - 1];
  }

  /** Declarations lead from registered records to registered records and built-in templates. */
  lemma {:induction false} DeclaredIsRegistered(d: Declarations, r: Registry, p: seq<Name>, i: nat)
    requires WellFormed(d, r) && forall n :: n in r.records ==> Closed(d, r, n)
    requires IsDeclaredPath(d, p) && i < |p| && (p[0] in r.records || p[0] in d.templates)
    ensures p[i] in r.records || p[i] in d.templates
  {
    if i > 0 {
      DeclaredIsRegistered(d, r, p, i - 1);
      assert Declares(d, p[i - 1], p[i]) && Closed(d, r, p[i - 1]);
      if Base(p[i]) in d.members[p[i - 1]] && p[i] in d.members {
        assert Handled(d, r, p[i - 1], Base(p[i]));
      } else {
        var t :| Field(t) in d.members[p[i - 1]] && Names(t, p[i]);
        NamesIsRecordOf(t, p[i]);
        assert Handled(d, r, p[i - 1], Field(t));
      }
    }
  }

  /** The mutable part of the generator: records in registration order, and their dependencies. */
  datatype Registry = Registry(records: seq<Name>, dependencies: Graph)

  ghost predicate WellFormed(d: Declarations, r: Registry) {
    && NoRepeats(r.records)
    && (forall n :: n in r.dependencies <==> n in r.records)
    && (forall n :: n in r.records ==> n in d.members && n !in d.templates)
  }

  /** What a member refers to is registered, unless it is a built-in template. */
  ghost predicate Refers(d: Declarations, records: seq<Name>, m: Member) {
    match m
    case Base(b) => b in d.members ==> b in records || b in d.templates
    case Field(t) => RecordOf(t).Some? ==> RecordOf(t).value in records || RecordOf(t).value in d.templates
  }

  /** A member of record n is dealt with: its record is registered, a base is a dependency of n. */
  ghost predicate Handled(d: Declarations, r: Registry, n: Name, m: Member) {
    Refers(d, r.records, m) &&
    (m.Base? && m.name in d.members ==> n in r.dependencies && m.name in r.dependencies[n])
  }

  lemma {:induction false} HandledStays(d: Declarations, r: Registry, s: Registry, n: Name, m: Member)
    requires Handled(d, r, n, m) && r.records <= s.records && Extends(r.dependencies, s.dependencies)
    requires n in r.dependencies && n in s.dependencies
    ensures Handled(d, s, n, m)
  {
    assert Deps(r.dependencies, n) <= Deps(s.dependencies, n);
  }

  ghost predicate Closed(d: Declarations, r: Registry, n: Name) {
    n in d.members && forall m :: m in d.members[n] ==> Handled(d, r, n, m)
  }

  predicate IsBase(d: Declarations, n: Name, b: Name) {
    n in d.members && Base(b) in d.members[n] && b in d.members
  }

  /** A recorded dependency is a base, or a record that was registered later and is reached by references
      through such records. */
  ghost predicate Forward(d: Declarations, r: Registry, n: Name) {
    n in r.dependencies && forall x :: x in r.dependencies[n] ==> Leads(d, r.records, n, x)
  }

  ghost predicate Leads(d: Declarations, records: seq<Name>, n: Name, x: Name) {
    IsBase(d, n, x) || (Precedes(records, n, x) && Reaches(Newer(d, records, n), n, x))
  }

  /** Whatever has been registered since a moment is reached from a name, by references through records that
      are not older than the name, and by recorded dependencies. */
  ghost predicate Found(d: Declarations, r: Registry, since: seq<Name>, from: Name) {
    forall x :: x in r.records && x !in since ==>
      Reaches(Newer(d, r.records, from), from, x) && Reaches(r.dependencies, from, x)
  }

  lemma {:induction false} FoundFurther(d: Declarations, r: Registry, s: Registry, since: seq<Name>, from: Name)
    requires Found(d, r, since, from) && Found(d, s, r.records, from) && Extends(r.dependencies, s.dependencies)
    requires r.records <= s.records && NoRepeats(s.records) && from in s.records
    ensures Found(d, s, since, from)
  {
    NewerGrows(d, r.records, s.records, from, from);
    forall x | x in s.records && x !in since
      ensures Reaches(Newer(d, s.records, from), from, x) && Reaches(s.dependencies, from, x)
    {
      if x in r.records {
        ReachesStays(Newer(d, r.records, from), Newer(d, s.records, from), from, x);
        ReachesStays(r.dependencies, s.dependencies, from, x);
      }
    }
  }

  /** At some moment every record from n on was reached from n by recorded dependencies, and all that these
      records refer to was registered. */
  ghost predicate Spans(d: Declarations, r: Registry, n: Name) {
    exists done :: done <= r.records && Span(d, r.dependencies, done, n)
  }

  ghost predicate Span(d: Declarations, g: Graph, done: seq<Name>, n: Name) {
    n in done && forall x :: x in Onwards(done, n) ==>
      Reaches(g, n, x) && x in d.members && forall m :: m in d.members[x] ==> Refers(d, done, m)
  }

  lemma {:induction false} SpansStays(d: Declarations, r: Registry, s: Registry, n: Name)
    requires Spans(d, r, n) && r.records <= s.records && Extends(r.dependencies, s.dependencies)
    ensures Spans(d, s, n)
  {
    var done :| done <= r.records && Span(d, r.dependencies, done, n);
    forall x | x in Onwards(done, n)
      ensures Reaches(s.dependencies, n, x)
    {
      ReachesStays(r.dependencies, s.dependencies, n, x);
    }
    assert done <= s.records && Span(d, s.dependencies, done, n);
  }

  /** What registration guarantees of a record once it is finished. */
  ghost predicate Settled(d: Declarations, r: Registry, n: Name) {
    Closed(d, r, n) && Forward(d, r, n) && Spans(d, r, n)
  }

  /** Registration from r to s: records at the end, each settled; the dependencies of earlier records stay,
      except those of the record under way. */
  ghost predicate Grows(d: Declarations, r: Registry, s: Registry, busy: Option<Name>) {
    && r.records <= s.records
    && (forall n :: n in r.dependencies && busy != Some(n) ==>
          n in s.dependencies && s.dependencies[n] == r.dependencies[n])
    && (forall n :: n in s.records && n !in r.records ==> Settled(d, s, n))
  }

  lemma {:induction false} ForwardStays(d: Declarations, r: Registry, s: Registry, n: Name)
    requires Forward(d, r, n) && r.records <= s.records && NoRepeats(s.records) && n in s.records
    requires n in s.dependencies && s.dependencies[n] == r.dependencies[n]
    ensures Forward(d, s, n)
  {
    NewerGrows(d, r.records, s.records, n, n);
    forall x | x in s.dependencies[n]
      ensures Leads(d, s.records, n, x)
    {
      assert Leads(d, r.records, n, x);
      if !IsBase(d, n, x) {
        PrecedesInLonger(r.records, s.records, n, x);
        ReachesStays(Newer(d, r.records, n), Newer(d, s.records, n), n, x);
      }
    }
  }

  lemma {:induction false} SettledStays(d: Declarations, r: Registry, s: Registry, n: Name)
    requires Settled(d, r, n) && r.records <= s.records && NoRepeats(s.records) && n in s.records
    requires Extends(r.dependencies, s.dependencies)
    requires n in s.dependencies && s.dependencies[n] == r.dependencies[n]
    ensures Settled(d, s, n)
  {
    ForwardStays(d, r, s, n);
    SpansStays(d, r, s, n);
    forall m | m in d.members[n]
      ensures Handled(d, s, n, m)
    {
      HandledStays(d, r, s, n, m);
    }
  }

  lemma {:induction false} GrowsFurther(d: Declarations, r: Registry, s: Registry, t: Registry, busy: Option<Name>)
    requires WellFormed(d, s) && WellFormed(d, t)
    requires Grows(d, r, s, busy) && Grows(d, s, t, None)
    ensures Grows(d, r, t, busy)
  {
    forall n | n in t.records && n !in r.records
      ensures Settled(d, t, n)
    {
      if n in s.records {
        SettledStays(d, s, t, n);
      }
    }
  }

  /** The declared records that are not registered yet. */
  ghost function Left(d: Declarations, records: seq<Name>): set<Name> {
    set n | n in d.members && n !in records
  }

  lemma {:induction false} LeftShrinks(d: Declarations, records: seq<Name>, longer: seq<Name>)
    requires records <= longer
    ensures |Left(d, longer)| <= |Left(d, records)|
    ensures (exists n :: n in Left(d, records) && n in longer) ==> |Left(d, longer)| < |Left(d, records)|
  {
    var a, b := Left(d, longer), Left(d, records);
    assert a <= b;
    CardinalityOfSubset(a, b);
    if n :| n in b && n in longer {
      assert a <= b - {n};
      CardinalityOfSubset(a, b - {n});
    }
  }

  lemma {:induction false} CardinalityOfSubset(a: set<Name>, b: set<Name>)
    requires a <= b
    ensures |a| <= |b|
  {
    if x :| x in a {
      CardinalityOfSubset(a - {x}, b - {x});
    }
  }

  /** Recording a dependency of the record under way. */
  lemma {:induction false} Depend(d: Declarations, r: Registry, s: Registry, name: Name, more: set<Name>)
    requires WellFormed(d, s) && Forward(d, s, name) && Grows(d, r, s, Some(name)) && name in r.records
    requires forall x :: x in more ==> Leads(d, s.records, name, x)
    ensures var t := s.(dependencies := s.dependencies[name := s.dependencies[name] + more]);
            WellFormed(d, t) && Forward(d, t, name) && Grows(d, r, t, Some(name))
  {
    var t := s.(dependencies := s.dependencies[name := s.dependencies[name] + more]);
    forall n | n in t.records && n !in r.records
      ensures Settled(d, t, n)
    {
      SettledStays(d, s, t, n);
    }
  }

  function Begun(r: Registry, name: Name): Registry {
    Registry(r.records + [name], r.dependencies[name := {}])
  }

  lemma {:induction false} BeginRecord(d: Declarations, r: Registry, name: Name)
    requires WellFormed(d, r) && name !in r.records && name in d.members && name !in d.templates
    ensures WellFormed(d, Begun(r, name)) && Forward(d, Begun(r, name), name)
    ensures Grows(d, Begun(r, name), Begun(r, name), Some(name))
    ensures |Left(d, Begun(r, name).records)| < |Left(d, r.records)|
  {
    LeftShrinks(d, r.records, Begun(r, name).records);
    assert name in Left(d, r.records) && Begun(r, name).records[|r.records|] == name;
  }

  /** From a record on, the list holds nothing that was there before it. */
  lemma {:induction false} OnwardsIsNew(records: seq<Name>, longer: seq<Name>, name: Name, x: Name)
    requires records + [name] <= longer && NoRepeats(longer) && x in Onwards(longer, name) && x != name
    ensures x !in records + [name]
  {
    var i, j :| 0 <= i < j < |longer| && longer[i] == name && longer[j] == x;
    assert longer[|records|] == name;
  }

  /** A record spans what is registered when its members are done. */
  lemma {:induction false} SpansNow(d: Declarations, records: seq<Name>, s: Registry, name: Name)
    requires WellFormed(d, s) && records + [name] <= s.records && Closed(d, s, name)
    requires Found(d, s, records + [name], name)
    requires forall n :: n in s.records && n !in records + [name] ==> Closed(d, s, n)
    ensures Spans(d, s, name)
  {
    assert s.records[|records|] == name;
    ReachesItself(s.dependencies, name);
    forall x | x in Onwards(s.records, name)
      ensures Reaches(s.dependencies, name, x) && Closed(d, s, x)
    {
      if x != name {
        OnwardsIsNew(records, s.records, name, x);
      }
    }
    assert Span(d, s.dependencies, s.records, name);
  }

  lemma {:induction false} FoundItself(d: Declarations, records: seq<Name>, s: Registry, name: Name)
    requires Found(d, s, records + [name], name)
    ensures Found(d, s, records, name)
  {
    ReachesItself(Newer(d, s.records, name), name);
    ReachesItself(s.dependencies, name);
  }

  lemma {:induction false} FinishRecord(d: Declarations, r: Registry, s: Registry, name: Name)
    requires WellFormed(d, r) && WellFormed(d, s) && name !in r.records
    requires Grows(d, Begun(r, name), s, Some(name)) && Forward(d, s, name) && Closed(d, s, name)
    requires Found(d, s, Begun(r, name).records, name)
    ensures Grows(d, r, s, None) && name in s.records && Found(d, s, r.records, name)
  {
    assert r.records <= Begun(r, name).records <= s.records;
    assert s.records[|r.records|] == name;
    SpansNow(d, r.records, s, name);
    FoundItself(d, r.records, s, name);
    forall n | n in s.records && n !in r.records
      ensures Settled(d, s, n)
    {
      if n != name {
        assert n !in Begun(r, name).records;
      }
    }
  }

  /** The registry while the members of a record are gone through. */
  ghost predicate UnderWay(d: Declarations, begun: Registry, s: Registry, name: Name, members: seq<Member>) {
    && Grows(d, begun, s, Some(name)) && Forward(d, s, name)
    && Found(d, s, begun.records, name)
    && forall m :: m in members ==> Handled(d, s, name, m)
  }

  lemma {:induction false} OneMemberMore(d: Declarations, begun: Registry, r: Registry, s: Registry, name: Name,
                                         members: seq<Member>, m: Member)
    requires UnderWay(d, begun, r, name, members) && r.records <= s.records
    requires Grows(d, begun, s, Some(name)) && Forward(d, s, name) && Handled(d, s, name, m)
    requires Extends(r.dependencies, s.dependencies) && Found(d, s, r.records, name)
    requires NoRepeats(s.records) && name in s.records
    ensures UnderWay(d, begun, s, name, members + [m])
  {
    FoundFurther(d, r, s, begun.records, name);
    forall x | x in members
      ensures Handled(d, s, name, x)
    {
      HandledStays(d, r, s, name, x);
    }
  }

  /** What was appended stands after everything that was there. */
  lemma {:induction false} NewcomersFollow(records: seq<Name>, longer: seq<Name>, name: Name)
    requires records <= longer && name in records
    ensures forall x :: x in longer && x !in records ==> Precedes(longer, name, x)
  {
    forall x | x in longer && x !in records
      ensures Precedes(longer, name, x)
    {
      var i :| 0 <= i < |records| && records[i] == name;
      var j :| 0 <= j < |longer| && longer[j] == x;
      assert longer[i] == name && i < j;
    }
  }

  /** Recording dependencies of the record under way. */
  function Depending(r: Registry, name: Name, more: set<Name>): Registry
    requires name in r.dependencies
  {
    r.(dependencies := r.dependencies[name := r.dependencies[name] + more])
  }

  /** A record under way before a nested registration, after it, and with its dependencies recorded. */
  lemma {:induction false} NestedAdded(d: Declarations, begun: Registry, r: Registry, s: Registry, name: Name,
                                       more: set<Name>)
    requires WellFormed(d, r) && WellFormed(d, s) && name in begun.records
    requires Grows(d, begun, r, Some(name)) && Forward(d, r, name) && Grows(d, r, s, None)
    requires forall x :: x in more ==> Leads(d, s.records, name, x)
    ensures name in s.dependencies
    ensures var t := Depending(s, name, more);
      && WellFormed(d, t) && Grows(d, begun, t, Some(name)) && Forward(d, t, name)
      && Extends(r.dependencies, t.dependencies) && more <= Deps(t.dependencies, name)
  {
    GrowsFurther(d, begun, r, s, Some(name));
    ForwardStays(d, r, s, name);
    Depend(d, begun, s, name, more);
  }

  /** What is reached from a newcomer that a record refers to is reached from the record. */
  lemma {:induction false} NewcomersReached(d: Declarations, records: seq<Name>, longer: seq<Name>, name: Name,
                                            m: Member, x: Name)
    requires records <= longer && NoRepeats(longer) && name in records
    requires name in d.members && m in d.members[name] && Target(d, m).Some?
    requires Target(d, m).value in longer && Target(d, m).value !in records
    requires Reaches(Newer(d, longer, Target(d, m).value), Target(d, m).value, x)
    ensures Reaches(Newer(d, longer, name), name, x)
  {
    var target := Target(d, m).value;
    NewcomersFollow(records, longer, name);
    NewerGrows(d, longer, longer, name, target);
    NewerRefers(d, longer, name, name, m);
    ReachesStays(Newer(d, longer, target), Newer(d, longer, name), target, x);
    StepReaches(Newer(d, longer, name), name, target, x);
  }

  lemma {:induction false} BaseAdded(d: Declarations, begun: Registry, r: Registry, s: Registry, name: Name, base: Name)
    requires WellFormed(d, r) && WellFormed(d, s) && name in begun.records && IsBase(d, name, base)
    requires Grows(d, begun, r, Some(name)) && Forward(d, r, name) && Grows(d, r, s, None)
    requires Found(d, s, r.records, base) && (base in s.records || base in d.templates)
    requires base in d.templates || base in r.records ==> s == r
    ensures name in s.dependencies
    ensures var t := Depending(s, name, {base});
      && WellFormed(d, t) && Grows(d, begun, t, Some(name)) && Forward(d, t, name)
      && Extends(r.dependencies, t.dependencies) && Handled(d, t, name, Base(base)) && Found(d, t, r.records, name)
  {
    NestedAdded(d, begun, r, s, name, {base});
    if s != r {
      FoundThroughBase(d, r, s, Depending(s, name, {base}), name, base);
    }
  }

  /** What the registration of a base has found is found from the record that derives from it. */
  lemma {:induction false} FoundThroughBase(d: Declarations, r: Registry, s: Registry, t: Registry, name: Name,
                                            base: Name)
    requires WellFormed(d, s) && r.records <= s.records && name in r.records && IsBase(d, name, base)
    requires Found(d, s, r.records, base) && base in s.records && base !in r.records && base !in d.templates
    requires t.records == s.records && Extends(s.dependencies, t.dependencies) && base in Deps(t.dependencies, name)
    ensures Found(d, t, r.records, name)
  {
    forall x | x in t.records && x !in r.records
      ensures Reaches(Newer(d, t.records, name), name, x) && Reaches(t.dependencies, name, x)
    {
      NewcomersReached(d, r.records, s.records, name, Base(base), x);
      ReachesStays(s.dependencies, t.dependencies, base, x);
      StepReaches(t.dependencies, name, base, x);
    }
  }

  /** What naming a field type registers is reached from the record inside it, which is new as well. */
  ghost predicate Newcomers(d: Declarations, r: Registry, s: Registry, fieldType: FieldType) {
    forall x :: x in s.records && x !in r.records ==>
      && RecordOf(fieldType).Some? && RecordOf(fieldType).value !in d.templates
      && RecordOf(fieldType).value in s.records && RecordOf(fieldType).value !in r.records
      && Reaches(Newer(d, s.records, RecordOf(fieldType).value), RecordOf(fieldType).value, x)
  }

  lemma {:induction false} FieldAdded(d: Declarations, begun: Registry, r: Registry, s: Registry, name: Name,
                                      fieldType: FieldType, more: set<Name>)
    requires WellFormed(d, r) && WellFormed(d, s) && name in begun.records
    requires Grows(d, begun, r, Some(name)) && Forward(d, r, name) && Grows(d, r, s, None)
    requires name in d.members && Field(fieldType) in d.members[name]
    requires Newcomers(d, r, s, fieldType) && Refers(d, s.records, Field(fieldType))
    requires forall x :: x in more <==> x in s.records && x !in r.records
    ensures name in s.dependencies
    ensures var t := Depending(s, name, more);
      && WellFormed(d, t) && Grows(d, begun, t, Some(name)) && Forward(d, t, name)
      && Extends(r.dependencies, t.dependencies) && Handled(d, t, name, Field(fieldType))
      && Found(d, t, r.records, name)
  {
    NewcomersFollow(r.records, s.records, name);
    forall x | x in more
      ensures Reaches(Newer(d, s.records, name), name, x)
    {
      NewcomersReached(d, r.records, s.records, name, Field(fieldType), x);
    }
    NestedAdded(d, begun, r, s, name, more);
    var t := Depending(s, name, more);
    forall x | x in t.records && x !in r.records
      ensures Reaches(t.dependencies, name, x)
    {
      EdgeReaches(t.dependencies, name, x);
    }
  }

  class Generator {
    const declarations: Declarations
    var records: seq<Name>
    var dependencies: Graph

    ghost function State(): Registry
      reads this
    {
      Registry(records, dependencies)
    }

    ghost predicate Valid()
      reads this
    {
      WellFormed(declarations, State())
    }

    constructor (declarations: Declarations)
      ensures Valid() && records == [] && this.declarations == declarations
    {
      this.declarations, records, dependencies := declarations, [], map[];
    }

    /** _add_record; false stands for the error on a type without a definition. */
    method AddRecord(name: Name) returns (ok: bool)
      requires Valid()
      modifies this
      ensures Valid() && old(records) <= records
      ensures ok ==> Grows(declarations, old(State()), State(), None)
      ensures ok ==> name in records || name in declarations.templates
      ensures name in declarations.templates || name in old(records) ==> State() == old(State())
      ensures ok ==> name in declarations.templates || name in old(records) || old(records) + [name] <= records
      ensures ok ==> Found(declarations, State(), old(records), name)
      ensures !ok ==> LeadsToUndefined(declarations, name)
      decreases |Left(declarations, records)|, 0, 0
    {
      if name in declarations.templates || name in records {
        return true;
      }
      if name !in declarations.members {
        UndefinedItself(declarations, name);
        return false;
      }
      ghost var before := State();
      records := records + [name];
      dependencies := dependencies[name := {}];
      ghost var begun := State();
      BeginRecord(declarations, before, name);
      ok := AddMembers(name, begun);
      if ok {
        FinishRecord(declarations, before, State(), name);
      }
    }

    /** The loop over the members of a record under way. */
    method AddMembers(name: Name, ghost begun: Registry) returns (ok: bool)
      requires Valid() && State() == begun && name in records && name in declarations.members
      requires UnderWay(declarations, begun, begun, name, [])
      modifies this
      ensures Valid() && begun.records <= records
      ensures ok ==> UnderWay(declarations, begun, State(), name, declarations.members[name])
      ensures !ok ==> LeadsToUndefined(declarations, name)
      decreases |Left(declarations, records)|, 2, 0
    {
      var members := declarations.members[name];
      for i := 0 to |members|
        invariant Valid() && begun.records <= records
        invariant UnderWay(declarations, begun, State(), name, members[..i])
      {
        LeftShrinks(declarations, begun.records, records);
        ok := AddNext(name, i, begun);
        if !ok {
          return;
        }
      }
      assert members[..|members|] == members;
      ok := true;
    }

    method AddNext(name: Name, i: nat, ghost begun: Registry) returns (ok: bool)
      requires Valid() && name in begun.records && begun.records <= records
      requires name in declarations.members && i < |declarations.members[name]|
      requires UnderWay(declarations, begun, State(), name, declarations.members[name][..i])
      modifies this
      ensures Valid() && old(records) <= records
      ensures ok ==> UnderWay(declarations, begun, State(), name, declarations.members[name][..i + 1])
      ensures !ok ==> LeadsToUndefined(declarations, name)
      decreases |Left(declarations, records)|, 1, 2
    {
      var members := declarations.members[name];
      ghost var entry := State();
      ok := AddMember(name, members[i], begun);
      if ok {
        OneMemberMore(declarations, begun, entry, State(), name, members[..i], members[i]);
        assert members[..i] + [members[i]] == members[..i + 1];
      }
    }

    /** One turn of the loop over the members of a record under way. */
    method AddMember(name: Name, member: Member, ghost begun: Registry) returns (ok: bool)
      requires Valid() && name in begun.records && Grows(declarations, begun, State(), Some(name))
      requires Forward(declarations, State(), name)
      requires name in declarations.members && member in declarations.members[name]
      modifies this
      ensures Valid() && old(records) <= records
      ensures ok ==> Grows(declarations, begun, State(), Some(name)) && Forward(declarations, State(), name)
      ensures ok ==> Handled(declarations, State(), name, member)
      ensures ok ==> Extends(old(dependencies), dependencies)
      ensures ok ==> Found(declarations, State(), old(records), name)
      ensures !ok ==> LeadsToUndefined(declarations, name)
      decreases |Left(declarations, records)|, 1, 1
    {
      match member
      case Base(base) =>
        ok := true;
        if base in declarations.members {
          ok := AddBase(name, base, begun);
        }
      case Field(fieldType) => ok := AddField(name, fieldType, begun);
    }

    method AddBase(name: Name, base: Name, ghost begun: Registry) returns (ok: bool)
      requires Valid() && name in begun.records && Grows(declarations, begun, State(), Some(name))
      requires Forward(declarations, State(), name)
      requires IsBase(declarations, name, base)
      modifies this
      ensures Valid() && old(records) <= records
      ensures ok ==> Grows(declarations, begun, State(), Some(name)) && Forward(declarations, State(), name)
      ensures ok ==> Handled(declarations, State(), name, Base(base))
      ensures ok ==> Extends(old(dependencies), dependencies)
      ensures ok ==> Found(declarations, State(), old(records), name)
      ensures !ok ==> LeadsToUndefined(declarations, name)
      decreases |Left(declarations, records)|, 1, 0
    {
      ghost var entry := State();
      ok := AddRecord(base);
      if ok {
        BaseAdded(declarations, begun, entry, State(), name, base);
        dependencies := dependencies[name := dependencies[name] + {base}];
      } else {
        UndefinedBehind(declarations, name, base);
      }
    }

    function Registered(): (names: set<Name>)
      reads this
      ensures forall n :: n in names <==> n in records
    {
      set n | n in records
    }

    method AddField(name: Name, fieldType: FieldType, ghost begun: Registry) returns (ok: bool)
      requires Valid() && name in begun.records && Grows(declarations, begun, State(), Some(name))
      requires Forward(declarations, State(), name)
      requires name in declarations.members && Field(fieldType) in declarations.members[name]
      modifies this
      ensures Valid() && old(records) <= records
      ensures ok ==> Grows(declarations, begun, State(), Some(name)) && Forward(declarations, State(), name)
      ensures ok ==> Handled(declarations, State(), name, Field(fieldType))
      ensures ok ==> Extends(old(dependencies), dependencies)
      ensures ok ==> Found(declarations, State(), old(records), name)
      ensures !ok ==> LeadsToUndefined(declarations, name)
      decreases |Left(declarations, records)|, 1, 0
    {
      ghost var entry := State();
      var before := Registered();
      ok := TypeName(fieldType);
      if ok {
        var after := Registered();
        FieldAdded(declarations, begun, entry, State(), name, fieldType, after - before);
        dependencies := dependencies[name := dependencies[name] + (after - before)];
      } else {
        ghost var x :| Names(fieldType, x) && LeadsToUndefined(declarations, x);
        UndefinedBehind(declarations, name, x);
      }
    }

    /** The root loop of add_roots, on a fresh generator: afterwards every record is settled. */
    method AddRoots(roots: seq<Name>) returns (ok: bool)
      requires Valid() && records == []
      modifies this
      ensures Valid()
      ensures ok ==> forall n :: n in records ==> Settled(declarations, State(), n)
      ensures ok ==> forall n :: n in roots ==> n in records || n in declarations.templates
      ensures ok <==> forall n :: n in roots ==> !LeadsToUndefined(declarations, n)
      ensures ok && roots != [] && roots[0] !in declarations.templates ==> [roots[0]] <= records
    {
      ghost var empty := State();
      for i := 0 to |roots|
        invariant Valid() && Grows(declarations, empty, State(), None)
        invariant forall j :: 0 <= j < i ==> roots[j] in records || roots[j] in declarations.templates
        invariant i == 0 ==> records == []
        invariant i > 0 && roots[0] !in declarations.templates ==> [roots[0]] <= records
      {
        ghost var entry := State();
        ok := AddRecord(roots[i]);
        if !ok {
          return;
        }
        GrowsFurther(declarations, empty, entry, State(), None);
      }
      ok := true;
      AllDefined(roots);
    }

    /** What is registered leads to nothing undefined. */
    lemma {:induction false} AllDefined(roots: seq<Name>)
      requires Valid() && forall n :: n in records ==> Closed(declarations, State(), n)
      requires forall n :: n in roots ==> n in records || n in declarations.templates
      ensures forall n :: n in roots ==> !LeadsToUndefined(declarations, n)
    {
      forall n | n in roots && LeadsToUndefined(declarations, n)
        ensures false
      {
        var p :| IsDeclaredPath(declarations, p) && p[0] == n && Undefined(declarations, p[|p| - 1]);
        DeclaredIsRegistered(declarations, State(), p, |p| - 1);
      }
    }

    /** type_name, as the recursion that registers records. */
    method TypeName(fieldType: FieldType) returns (ok: bool)
      requires Valid()
      modifies this
      ensures Valid() && old(records) <= records
      ensures ok ==> Grows(declarations, old(State()), State(), None)
      ensures ok ==> Refers(declarations, records, Field(fieldType))
      ensures ok ==> Newcomers(declarations, old(State()), State(), fieldType)
      ensures !ok ==> exists n :: Names(fieldType, n) && LeadsToUndefined(declarations, n)
      decreases |Left(declarations, records)|, 0, 1 + Size(fieldType)
    {
      match fieldType
      case Builtin => ok := true;
      case Record(name) =>
        NamesIsRecordOf(fieldType, name);
        ok := AddRecord(name);
      case Pointer(t) =>
        SameRecord(fieldType, t);
        ok := TypeName(t);
      case ArrayOf(t) =>
        SameRecord(fieldType, t);
        ok := TypeName(t);
      case Template(t) =>
        SameRecord(fieldType, t);
        ok := TypeName(t);
    }

    lemma {:induction false} SameRecord(t: FieldType, inner: FieldType)
      requires t in {Pointer(inner), ArrayOf(inner), Template(inner)}
      ensures forall n :: Names(t, n) <==> Names(inner, n)
    {
      forall n
        ensures Names(t, n) <==> Names(inner, n)
      {
        NamesIsRecordOf(t, n);
        NamesIsRecordOf(inner, n);
      }
    }
  }

  // ----- Order

  ghost function Elements(names: seq<Name>): set<Name> {
    set n | n in names
  }

  lemma {:induction false} ElementsAppend(names: seq<Name>, n: Name)
    ensures Elements(names + [n]) == Elements(names) + {n}
  {
  }

  /** Every recorded name: those with dependencies, and the dependencies themselves. */
  ghost function Universe(g: Graph): set<Name> {
    g.Keys + set n, x | n in g && x in g[n] :: x
  }

  /** Each listed name once, and after all its dependencies. */
  ghost predicate Topological(g: Graph, ordered: seq<Name>) {
    NoRepeats(ordered) && forall n, x :: n in ordered && x in Deps(g, n) ==> Precedes(ordered, x, n)
  }

  /** Along a path on which every edge raises the rank, the rank rises. */
  lemma {:induction false} RankRises(g: Graph, rank: Name -> int, p: seq<Name>)
    requires IsPath(g, p) && |p| > 1
    requires forall n, x :: n in g && x in g[n] ==> rank(n) < rank(x)
    ensures rank(p[0]) < rank(p[|p| - 1])
  {
    assert p[1] in Deps(g, p[0]);
    if |p| > 2 {
      RankRises(g, rank, p[1..]);
    }
  }

  function IndexOf(names: seq<Name>, n: Name): nat {
    if names == [] || names[0] == n then 0 else 1 + IndexOf(names[1..], n)
  }

  lemma {:induction false} IndexOfAt(names: seq<Name>, i: nat)
    requires NoRepeats(names) && i < |names|
    ensures IndexOf(names, names[i]) == i
  {
    if i > 0 {
      assert names[0] != names[i];
      IndexOfAt(names[1..], i - 1);
    }
  }

  lemma {:induction false} PrecedingIndex(names: seq<Name>, a: Name, b: Name)
    requires NoRepeats(names) && Precedes(names, a, b)
    ensures IndexOf(names, a) < IndexOf(names, b)
  {
    var i, j :| 0 <= i < j < |names| && names[i] == a && names[j] == b;
    IndexOfAt(names, i);
    IndexOfAt(names, j);
  }

  /** A complete topological order leaves no room for a cycle. */
  lemma {:induction false} TopologicalIsAcyclic(g: Graph, ordered: seq<Name>)
    requires Topological(g, ordered) && forall n :: n in g ==> n in ordered
    ensures !HasCycle(g)
  {
    var rank := (n: Name) => 0 - (IndexOf(ordered, n) as int);
    forall n, x | n in g && x in g[n]
      ensures rank(n) < rank(x)
    {
      assert x in Deps(g, n);
      PrecedingIndex(ordered, x, n);
    }
    forall p | IsPath(g, p) && |p| > 1
      ensures p[0] != p[|p| - 1]
    {
      RankRises(g, rank, p);
    }
  }

  // ----- When the recorded graph has a cycle

  /** Record n derives from b and is reached from b by references through records not older than b. */
  ghost predicate BaseLoop(d: Declarations, records: seq<Name>, n: Name, b: Name) {
    n in records && b in records && IsBase(d, n, b) && Reaches(Newer(d, records, b), b, n)
  }

  /** References through records that are not older than b stay within what b has spanned. */
  lemma {:induction false} SpanPath(d: Declarations, r: Registry, done: seq<Name>, b: Name, p: seq<Name>)
    requires WellFormed(d, r) && done <= r.records && Span(d, r.dependencies, done, b)
    requires IsPath(Newer(d, r.records, b), p) && p[0] in Onwards(done, b)
    ensures p[|p| - 1] in Onwards(done, b)
  {
    if |p| > 1 {
      var m :| m in d.members[p[0]] && Target(d, m) == Some(p[1]);
      assert Refers(d, done, m) && p[1] in Onwards(r.records, b);
      if p[1] != b {
        PrecedesInShorter(done, r.records, b, p[1]);
      }
      SpanPath(d, r, done, b, p[1..]);
    }
  }

  lemma {:induction false} BaseLoopCloses(d: Declarations, r: Registry, n: Name, b: Name)
    requires WellFormed(d, r) && BaseLoop(d, r.records, n, b) && Settled(d, r, n) && Settled(d, r, b)
    ensures HasCycle(r.dependencies)
  {
    var done :| done <= r.records && Span(d, r.dependencies, done, b);
    var p :| IsPathTo(Newer(d, r.records, b), p, b, n);
    SpanPath(d, r, done, b, p);
    assert Handled(d, r, n, Base(b));
    EdgeCloses(r.dependencies, n, b);
  }

  lemma {:induction false} PathEdge(g: Graph, p: seq<Name>, i: nat)
    requires IsPath(g, p) && i + 1 < |p|
    ensures p[i + 1] in Deps(g, p[i])
  {
    if i > 0 {
      PathEdge(g, p[1..], i - 1);
    }
  }

  lemma {:induction false} PathPrefix(g: Graph, p: seq<Name>, k: nat)
    requires IsPath(g, p) && 0 < k <= |p|
    ensures IsPath(g, p[..k])
  {
    if k > 1 {
      PathPrefix(g, p[1..], k - 1);
      assert p[1..][..k - 1] == p[..k][1..];
    }
  }

  /** Recorded dependencies between records not older than b follow references between such records. */
  lemma {:induction false} RecordedWithin(d: Declarations, r: Registry, b: Name, p: seq<Name>)
    requires WellFormed(d, r) && forall n :: n in r.records ==> Forward(d, r, n)
    requires IsPath(r.dependencies, p) && forall i :: 0 <= i < |p| ==> p[i] in Onwards(r.records, b)
    ensures Reaches(Newer(d, r.records, b), p[0], p[|p| - 1])
  {
    ReachesItself(Newer(d, r.records, b), p[0]);
    if |p| > 1 {
      RecordedWithin(d, r, b, p[1..]);
      assert Forward(d, r, p[0]) && Leads(d, r.records, p[0], p[1]);
      if IsBase(d, p[0], p[1]) {
        NewerRefers(d, r.records, b, p[0], Base(p[1]));
        EdgeReaches(Newer(d, r.records, b), p[0], p[1]);
      } else {
        NewerGrows(d, r.records, r.records, b, p[0]);
        ReachesStays(Newer(d, r.records, p[0]), Newer(d, r.records, b), p[0], p[1]);
      }
      ReachesFurther(Newer(d, r.records, b), p[0], p[1], p[|p| - 1]);
    }
  }

  /** The place of the earliest record behind the first place of a circle. */
  lemma {:induction false} Earliest(records: seq<Name>, p: seq<Name>) returns (k: nat)
    requires |p| > 1
    ensures 1 <= k < |p| && forall i :: 1 <= i < |p| ==> IndexOf(records, p[k]) <= IndexOf(records, p[i])
  {
    var last := |p| - 1;
    if |p| == 2 {
      k := 1;
    } else {
      k := Earliest(records, p[..last]);
      if IndexOf(records, p[last]) < IndexOf(records, p[k]) {
        k := last;
      }
    }
  }

  lemma {:induction false} OnwardsByIndex(records: seq<Name>, b: Name, x: Name)
    requires b in records && x in records && IndexOf(records, b) <= IndexOf(records, x)
    ensures x in Onwards(records, b)
  {
    IndexOfIn(records, b);
    IndexOfIn(records, x);
    if x != b {
      assert records[IndexOf(records, b)] == b && records[IndexOf(records, x)] == x;
    }
  }

  lemma {:induction false} IndexOfIn(names: seq<Name>, n: Name)
    requires n in names
    ensures IndexOf(names, n) < |names| && names[IndexOf(names, n)] == n
  {
    if names[0] != n {
      IndexOfIn(names[1..], n);
    }
  }

  /** On a circle of recorded dependencies all records are registered, and none before the earliest. */
  lemma {:induction false} CircleOnwards(d: Declarations, r: Registry, p: seq<Name>, k: nat)
    requires WellFormed(d, r) && IsPath(r.dependencies, p) && |p| > 1 && p[0] == p[|p| - 1] && 1 <= k < |p|
    requires forall i :: 1 <= i < |p| ==> IndexOf(r.records, p[k]) <= IndexOf(r.records, p[i])
    ensures forall i :: 0 <= i < |p| ==> p[i] in Onwards(r.records, p[k])
    ensures IndexOf(r.records, p[k]) <= IndexOf(r.records, p[k - 1])
  {
    var last := |p| - 1;
    forall i | 0 <= i < |p|
      ensures p[i] in r.records
    {
      PathEdge(r.dependencies, p, if i < last then i else 0);
    }
    forall i | 0 <= i < |p|
      ensures p[i] in Onwards(r.records, p[k])
    {
      OnwardsByIndex(r.records, p[k], if i > 0 then p[i] else p[last]);
    }
    assert IndexOf(r.records, p[k]) <= IndexOf(r.records, if k > 1 then p[k - 1] else p[last]);
  }

  /** The earliest record of a circle is a base of the record in front of it. */
  lemma {:induction false} EarliestIsBase(d: Declarations, r: Registry, n: Name, b: Name)
    requires WellFormed(d, r) && n in r.records && Forward(d, r, n) && b in Deps(r.dependencies, n)
    requires IndexOf(r.records, b) <= IndexOf(r.records, n)
    ensures IsBase(d, n, b)
  {
    assert Leads(d, r.records, n, b);
    if Precedes(r.records, n, b) {
      PrecedingIndex(r.records, n, b);
    }
  }

  /** A circle of recorded dependencies goes through a base that refers to the record deriving from it. */
  lemma {:induction false} CircleHasBaseLoop(d: Declarations, r: Registry, p: seq<Name>)
    requires WellFormed(d, r) && forall n :: n in r.records ==> Forward(d, r, n)
    requires IsPath(r.dependencies, p) && |p| > 1 && p[0] == p[|p| - 1]
    ensures exists n, b :: BaseLoop(d, r.records, n, b)
  {
    var k := Earliest(r.records, p);
    var n, b := p[k - 1], p[k];
    CircleOnwards(d, r, p, k);
    PathEdge(r.dependencies, p, k - 1);
    EarliestIsBase(d, r, n, b);
    PathSuffix(r.dependencies, p, k);
    RecordedWithin(d, r, b, p[k..]);
    PathPrefix(r.dependencies, p, k);
    RecordedWithin(d, r, b, p[..k]);
    ReachesFurther(Newer(d, r.records, b), b, p[0], n);
    assert BaseLoop(d, r.records, n, b);
  }

  /** MAIN RESULT.  Whatever points to whatever, the recorded graph has a cycle exactly if some record is
      reached from a base of it by references through records that were registered no earlier than the base. */
  lemma {:induction false} CycleIffBaseLoop(d: Declarations, r: Registry)
    requires WellFormed(d, r) && forall n :: n in r.records ==> Settled(d, r, n)
    ensures HasCycle(r.dependencies) <==> exists n, b :: BaseLoop(d, r.records, n, b)
  {
    if HasCycle(r.dependencies) {
      var p :| IsPath(r.dependencies, p) && |p| > 1 && p[0] == p[|p| - 1];
      CircleHasBaseLoop(d, r, p);
    }
    if n, b :| BaseLoop(d, r.records, n, b) {
      BaseLoopCloses(d, r, n, b);
    }
  }

  /** No record is reached by declared references from a base of it. */
  ghost predicate NoBaseCycle(d: Declarations) {
    forall n, b :: IsBase(d, n, b) && b !in d.templates ==> !Reaches(References(d), b, n)
  }

  /** In particular there is no cycle if no record is reached from its own base at all, so none without bases. */
  lemma {:induction false} ForwardIsAcyclic(d: Declarations, r: Registry)
    requires WellFormed(d, r) && forall n :: n in r.records ==> Settled(d, r, n)
    requires NoBaseCycle(d)
    ensures !HasCycle(r.dependencies)
  {
    CycleIffBaseLoop(d, r);
    forall n, b | BaseLoop(d, r.records, n, b)
      ensures false
    {
      ReachesStays(Newer(d, r.records, b), References(d), b, n);
    }
  }

  lemma {:induction false} ClosedPath(d: Declarations, r: Registry, root: Name, p: seq<Name>)
    requires WellFormed(d, r) && forall n :: n in r.records ==> Closed(d, r, n)
    requires [root] <= r.records && IsPath(References(d), p) && p[0] in r.records
    ensures IsPath(Newer(d, r.records, root), p) && p[|p| - 1] in r.records
  {
    if |p| > 1 {
      assert Closed(d, r, p[0]);
      var m :| m in d.members[p[0]] && Target(d, m) == Some(p[1]);
      assert Handled(d, r, p[0], m);
      ClosedPath(d, r, root, p[1..]);
      FirstOnwards(r.records, p[0]);
      FirstOnwards(r.records, p[1]);
      NewerRefers(d, r.records, root, p[0], m);
    }
  }

  lemma {:induction false} FirstOnwards(records: seq<Name>, x: Name)
    requires x in records
    ensures x in Onwards(records, records[0])
  {
    var j :| 0 <= j < |records| && records[j] == x;
    assert j > 0 ==> records[0] == records[0] && records[j] == x;
  }

  /** If the first root is a base that refers to a record deriving from it, there is a cycle. */
  lemma {:induction false} FirstRootLoops(d: Declarations, r: Registry, root: Name, n: Name)
    requires WellFormed(d, r) && forall x :: x in r.records ==> Settled(d, r, x)
    requires [root] <= r.records && IsBase(d, n, root) && Reaches(References(d), root, n)
    ensures HasCycle(r.dependencies)
  {
    var p :| IsPathTo(References(d), p, root, n);
    assert r.records[0] == root;
    ClosedPath(d, r, root, p);
    assert IsPathTo(Newer(d, r.records, root), p, root, n);
    assert BaseLoop(d, r.records, n, root);
    CycleIffBaseLoop(d, r);
  }

  /** A record that refers back to the record deriving from it. */
  function BaseAndDerived(): Declarations {
    Declarations(map[1 := [Field(Pointer(Record(2)))], 2 := [Base(1)]], {})
  }

  /** A witness that no value has to contain itself for the error: the base holds a pointer only. */
  lemma {:induction false} PointerToDerived()
    ensures IsBase(BaseAndDerived(), 2, 1) && Reaches(References(BaseAndDerived()), 1, 2)
  {
    var d := BaseAndDerived();
    var field := Field(Pointer(Record(2)));
    assert d.members[1][0] == field && d.members[2][0] == Base(1);
    assert RecordOf(Pointer(Record(2))) == RecordOf(Record(2)) == Some(2);
    MemberRefers(d, 1, field);
    EdgeReaches(References(d), 1, 2);
  }

  /** With these declarations the order of registration decides: with the base first there is a loop, also
      behind a record that leads to it, with the derived record first there is none. */
  lemma {:induction false} RegistrationDecides()
    ensures BaseLoop(BaseAndDerived(), [1, 2], 2, 1) && BaseLoop(BaseAndDerived(), [3, 1, 2], 2, 1)
    ensures forall n, b :: !BaseLoop(BaseAndDerived(), [2, 1], n, b)
  {
    PointerToDerived();
    PointerLoops([1, 2], 0);
    PointerLoops([3, 1, 2], 1);
    forall n, b | BaseLoop(BaseAndDerived(), [2, 1], n, b)
      ensures false
    {
      var g := Newer(BaseAndDerived(), [2, 1], b);
      var p :| IsPathTo(g, p, b, n);
      PathEdge(g, p, |p| - 2);
    }
  }

  lemma {:induction false} PointerLoops(records: seq<Name>, i: nat)
    requires i + 1 < |records| && records[i] == 1 && records[i + 1] == 2
    ensures BaseLoop(BaseAndDerived(), records, 2, 1)
  {
    var d, field := BaseAndDerived(), Field(Pointer(Record(2)));
    assert d.members[1][0] == field && d.members[2][0] == Base(1);
    assert RecordOf(Pointer(Record(2))) == RecordOf(Record(2)) == Some(2);
    assert Precedes(records, 1, 2);
    NewerRefers(d, records, 1, 1, field);
    EdgeReaches(Newer(d, records, 1), 1, 2);
  }

  /** The names to order are exactly the registered records unless a registered record has a
      built-in template as its base. */
  lemma {:induction false} UniverseIsRegistered(d: Declarations, r: Registry)
    requires WellFormed(d, r)
    requires forall n :: n in r.records ==> Forward(d, r, n) && Closed(d, r, n)
    ensures Universe(r.dependencies) == Elements(r.records) <==>
            forall n, b :: n in r.records && IsBase(d, n, b) ==> b !in d.templates
  {
    var registered := Elements(r.records);
    var all := Universe(r.dependencies);
    assert registered <= all;
    if n, b :| n in r.records && IsBase(d, n, b) && b in d.templates {
      assert Handled(d, r, n, Base(b));
      assert b in all && b !in registered;
    } else {
      forall n, x | n in r.dependencies && x in r.dependencies[n]
        ensures x in registered
      {
        assert Forward(d, r, n) && Closed(d, r, n);
        assert IsBase(d, n, x) ==> Handled(d, r, n, Base(x));
      }
    }
  }

  /** A witness: a record that derives from a built-in template brings the template's name into the order. */
  lemma {:induction false} TemplateBaseIsOrdered()
    ensures var d, r := Declarations(map[1 := [Base(2)], 2 := []], {2}), Registry([1], map[1 := {2}]);
      && WellFormed(d, r) && Forward(d, r, 1) && Closed(d, r, 1)
      && 2 in Universe(r.dependencies) && 2 !in r.records
  {
    var d := Declarations(map[1 := [Base(2)], 2 := []], {2});
    assert d.members[1][0] == Base(2);
  }

  lemma {:induction false} PathSuffix(g: Graph, p: seq<Name>, i: nat)
    requires IsPath(g, p) && i < |p|
    ensures IsPath(g, p[i..])
  {
    if i > 0 {
      PathSuffix(g, p[1..], i - 1);
      assert p[1..][i - 1..] == p[i..];
    }
  }

  lemma {:induction false} StackCycle(g: Graph, stack: seq<Name>, name: Name)
    requires IsPath(g, stack + [name]) && name in stack
    ensures HasCycle(g)
  {
    var i :| 0 <= i < |stack| && stack[i] == name;
    var whole := stack + [name];
    var p := whole[i..];
    PathSuffix(g, whole, i);
    assert IsPath(g, p) && |p| > 1 && p[0] == p[|p| - 1];
  }

  lemma {:induction false} PathExtends(g: Graph, p: seq<Name>, next: Name)
    requires IsPath(g, p) && next in Deps(g, p[|p| - 1])
    ensures IsPath(g, p + [next])
  {
    if |p| > 1 {
      PathExtends(g, p[1..], next);
      assert (p + [next])[1..] == p[1..] + [next];
    } else {
      assert (p + [next])[1..] == [next];
    }
  }

  lemma {:induction false} TopologicalAppend(g: Graph, ordered: seq<Name>, name: Name)
    requires Topological(g, ordered) && name !in ordered
    requires forall x :: x in Deps(g, name) ==> x in ordered
    ensures Topological(g, ordered + [name])
  {
    var longer := ordered + [name];
    forall n, x | n in longer && x in Deps(g, n)
      ensures Precedes(longer, x, n)
    {
      if n == name {
        var i :| 0 <= i < |ordered| && ordered[i] == x;
        assert longer[i] == x && longer[|ordered|] == name;
      } else {
        PrecedesInLonger(ordered, longer, x, n);
      }
    }
  }

  /** The state of _ordered_records. */
  class Ordering {
    const graph: Graph
    var ordered: seq<Name>
    var visiting: set<Name>
    var visited: set<Name>

    ghost predicate Valid()
      reads this
    {
      && Topological(graph, ordered)
      && visited == Elements(ordered)
      && visiting <= Universe(graph) && visited <= Universe(graph)
      && visiting !! visited
    }

    constructor (graph: Graph)
      ensures Valid() && visiting == {} && ordered == [] && this.graph == graph
    {
      this.graph, ordered, visiting, visited := graph, [], {}, {};
    }

    /** The least name of a set: the next one in sorted order. */
    method Least(names: set<Name>) returns (least: Name)
      requires names != {}
      ensures least in names && forall n :: n in names ==> least <= n
    {
      least :| least in names;
      var rest := names;
      while rest != {}
        invariant rest <= names && least in names
        invariant forall n :: n in names && n !in rest ==> least <= n
        decreases |rest|
      {
        var n :| n in rest;
        rest := rest - {n};
        if n < least {
          least := n;
        }
      }
    }

    /** visit; false stands for the recursive-record error.  The stack is the call chain. */
    method Visit(name: Name, ghost stack: seq<Name>) returns (ok: bool)
      requires Valid() && name in Universe(graph)
      requires visiting == Elements(stack) && IsPath(graph, stack + [name])
      modifies this
      ensures Valid() && old(visited) <= visited
      ensures ok ==> name in visited && visiting == old(visiting)
      ensures !ok ==> HasCycle(graph)
      decreases Universe(graph) - visiting, 0
    {
      if name in visited {
        return true;
      }
      if name in visiting {
        StackCycle(graph, stack, name);
        return false;
      }
      ghost var entry := visiting;
      ElementsAppend(stack, name);
      assert name in Universe(graph) - visiting;
      visiting := visiting + {name};
      assert Universe(graph) - visiting == Universe(graph) - entry - {name};
      ok := VisitDependencies(name, stack + [name]);
      if !ok {
        return;
      }
      Finish(name);
      assert visiting == entry;
    }

    /** The end of visit: every dependency is listed, so the name can be. */
    method Finish(name: Name)
      requires Valid() && name in visiting && Deps(graph, name) <= visited
      modifies this
      ensures Valid() && visiting == old(visiting) - {name} && visited == old(visited) + {name}
    {
      visiting := visiting - {name};
      TopologicalAppend(graph, ordered, name);
      ElementsAppend(ordered, name);
      visited := visited + {name};
      ordered := ordered + [name];
    }

    /** The loop over sorted dependencies. */
    method VisitDependencies(name: Name, ghost stack: seq<Name>) returns (ok: bool)
      requires Valid() && name in visiting
      requires visiting == Elements(stack) && IsPath(graph, stack) && stack[|stack| - 1] == name
      modifies this
      ensures Valid() && old(visited) <= visited
      ensures ok ==> visiting == old(visiting) && Deps(graph, name) <= visited
      ensures !ok ==> HasCycle(graph)
      decreases Universe(graph) - visiting, 1
    {
      var left := Deps(graph, name);
      while left != {}
        invariant Valid() && visiting == old(visiting) && old(visited) <= visited
        invariant left <= Deps(graph, name) && Deps(graph, name) - left <= visited
        decreases |left|
      {
        var dependency := Least(left);
        PathExtends(graph, stack, dependency);
        ok := Visit(dependency, stack);
        if !ok {
          return;
        }
        left := left - {dependency};
      }
      ok := true;
    }

    /** _ordered_records.  The error is raised exactly when the recorded graph has a cycle; otherwise
        the result lists every recorded name once, after its dependencies. */
    method OrderedRecords(records: seq<Name>) returns (result: Result<seq<Name>>)
      requires Valid() && visiting == {} && ordered == []
      requires forall n :: n in graph <==> n in records
      modifies this
      ensures result.Err? <==> HasCycle(graph)
      ensures result.Ok? ==> Topological(graph, result.value) && Elements(result.value) == Universe(graph)
    {
      for i := 0 to |records|
        invariant Valid() && visiting == {}
        invariant forall j :: 0 <= j < i ==> records[j] in visited
      {
        assert [] + [records[i]] == [records[i]] && records[i] in graph;
        var ok := Visit(records[i], []);
        if !ok {
          return Err("recursive value record");
        }
      }
      TopologicalIsAcyclic(graph, ordered);
      forall x | x in Universe(graph)
        ensures x in ordered
      {
        if x !in graph {
          var n :| n in graph && x in graph[n];
          assert n in ordered && x in Deps(graph, n);
        }
      }
      result := Ok(ordered);
    }
  }

  /** MAIN RESULT, end to end: registration from the roots and then ordering.  Registration fails exactly if
      declarations lead from a root to a record without a definition.  The error is raised exactly
      if some registered record is reached from a base of it by references through records registered no
      earlier than the base.  So it is never raised if no record is reached from a base of it at all, and
      always if the first root is such a base. */
  method OrderRoots(declarations: Declarations, roots: seq<Name>)
    returns (registered: bool, order: Result<seq<Name>>, ghost r: Registry)
    ensures registered <==> forall n :: n in roots ==> !LeadsToUndefined(declarations, n)
    ensures registered ==> forall n :: n in roots ==> n in r.records || n in declarations.templates
    ensures registered ==> (order.Err? <==> HasCycle(r.dependencies))
    ensures registered ==> (order.Err? <==> exists n, b :: BaseLoop(declarations, r.records, n, b))
    ensures registered && order.Ok? ==>
              && Topological(r.dependencies, order.value)
              && Elements(order.value) == Universe(r.dependencies)
              && (Elements(order.value) == Elements(r.records) <==>
                  forall n, b :: n in r.records && IsBase(declarations, n, b) ==> b !in declarations.templates)
    ensures registered && NoBaseCycle(declarations) ==> order.Ok?
    ensures registered && roots != [] && roots[0] !in declarations.templates
            && (exists n :: IsBase(declarations, n, roots[0]) && Reaches(References(declarations), roots[0], n)) ==>
              order.Err?
  {
    var generator := new Generator(declarations);
    registered := generator.AddRoots(roots);
    r := generator.State();
    if !registered {
      return false, Err("missing definition"), r;
    }
    var ordering := new Ordering(generator.dependencies);
    order := ordering.OrderedRecords(generator.records);
    UniverseIsRegistered(declarations, r);
    CycleIffBaseLoop(declarations, r);
    if NoBaseCycle(declarations) {
      ForwardIsAcyclic(declarations, r);
    }
    if n :| roots != [] && roots[0] !in declarations.templates && IsBase(declarations, n, roots[0])
            && Reaches(References(declarations), roots[0], n) {
      FirstRootLoops(declarations, r, roots[0], n);
    }
  }
}
