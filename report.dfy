/**
 * The relation computation: which subject (a type T, or its pointer variant
 * *T) is listed against which interface, in the forward order ("T
 * implements ...", one pass per subject over the interface universe) and in
 * the reverse order ("I is implemented by ...", one pass per interface over
 * the subjects). Reports are lists of headings with their entries; their
 * rendering as text is not modelled.
 */
module Report {
  import opened GoTypes
  import opened Interfaces

  /**
   * The pairs both passes skip: interfaces without methods, which every type
   * implements, and an interface met under its own package and name.
   */
  predicate Skipped(t: TypeEntry, i: Interface) {
    i.required == {} || (t.pkg == i.obj.pkg && t.name == i.name)
  }

  /**
   * Whether T (pointer false) or *T (pointer true) is listed against i. The
   * pointer variant is only checked for a subject that is not an interface.
   */
  predicate Listed(pointer: bool, t: TypeEntry, i: Interface)
    ensures Listed(pointer, t, i) ==> !Skipped(t, i)
    ensures pointer && Listed(pointer, t, i) ==> !t.IsInterface()
    ensures !pointer && !t.IsInterface() && Listed(pointer, t, i) ==> DoesImplement(t.PointerMethodSet(), i.required)
  {
    && !Skipped(t, i)
    && if pointer then !t.IsInterface() && DoesImplement(t.PointerMethodSet(), i.required)
       else DoesImplement(t.MethodSet(), i.required)
  }

  // ---------------------------------------------------------------- forward

  /** A forward heading and its list: "T implements..." or "*T implements...". */
  datatype SubjectGroup = SubjectGroup(pointer: bool, subject: TypeEntry, interfaces: seq<Interface>)

  /** The interfaces of ifaces that T (or *T) is listed against, in the order of ifaces. */
  function Implements(pointer: bool, t: TypeEntry, ifaces: seq<Interface>): seq<Interface>
    decreases |ifaces|
  {
    if ifaces == [] then []
    else
      var last := ifaces[|ifaces| - 1];
      Implements(pointer, t, ifaces[..|ifaces| - 1]) + (if Listed(pointer, t, last) then [last] else [])
  }

  /** The headings of one subject: T's list, then *T's list, each only when non-empty. */
  function SubjectGroups(t: TypeEntry, ifaces: seq<Interface>): seq<SubjectGroup> {
    var implements := Implements(false, t, ifaces);
    var implementsPointer := Implements(true, t, ifaces);
    (if |implements| > 0 then [SubjectGroup(false, t, implements)] else [])
    + (if |implementsPointer| > 0 then [SubjectGroup(true, t, implementsPointer)] else [])
  }

  /** The forward report: the headings of every subject of toCheck, in order. */
  function ForwardReport(ifaces: seq<Interface>, toCheck: seq<TypeEntry>): seq<SubjectGroup>
    decreases |toCheck|
  {
    if toCheck == [] then []
    else ForwardReport(ifaces, toCheck[..|toCheck| - 1]) + SubjectGroups(toCheck[|toCheck| - 1], ifaces)
  }

  /** The forward report lists i under the heading of T (or *T). */
  predicate ForwardRelates(report: seq<SubjectGroup>, pointer: bool, t: TypeEntry, i: Interface) {
    exists g :: g in report && g.pointer == pointer && g.subject == t && i in g.interfaces
  }

  /** The inner loop of listImplementedInterfaces: the lists of T and of *T over the interfaces. */
  method ImplementsOf(typ: TypeEntry, interfaces: seq<Interface>)
    returns (implements: seq<Interface>, implementsPointer: seq<Interface>)
    ensures implements == Implements(false, typ, interfaces)
    ensures implementsPointer == Implements(true, typ, interfaces)
  {
    implements, implementsPointer := [], [];
    for j := 0 to |interfaces|
      invariant implements == Implements(false, typ, interfaces[..j])
      invariant implementsPointer == Implements(true, typ, interfaces[..j])
    {
      var iface := interfaces[j];
      assert interfaces[..j + 1][..j] == interfaces[..j];
      if iface.required == {} {
        continue;
      }
      if typ.pkg == iface.obj.pkg && typ.name == iface.name {
        continue;
      }
      if DoesImplement(typ.MethodSet(), iface.required) {
        implements := implements + [iface];
      }
      if !typ.IsInterface() {
        if DoesImplement(typ.PointerMethodSet(), iface.required) {
          implementsPointer := implementsPointer + [iface];
        }
      }
    }
    assert interfaces[..|interfaces|] == interfaces;
  }

  /** listImplementedInterfaces */
  method ListImplementedInterfaces(universe: seq<TypeEntry>, toCheck: seq<TypeEntry>)
    returns (report: seq<SubjectGroup>)
    ensures report == ForwardReport(InterfacesOf(universe), toCheck)
  {
    var interfaces := GetInterfaces(universe);
    report := [];
    for k := 0 to |toCheck|
      invariant report == ForwardReport(interfaces, toCheck[..k])
    {
      var typ := toCheck[k];
      var implements, implementsPointer := ImplementsOf(typ, interfaces);
      assert toCheck[..k + 1][..k] == toCheck[..k];
      if |implements| > 0 {
        report := report + [SubjectGroup(false, typ, implements)];
      }
      if |implementsPointer| > 0 {
        report := report + [SubjectGroup(true, typ, implementsPointer)];
      }
    }
    assert toCheck[..|toCheck|] == toCheck;
  }

  // ---------------------------------------------------------------- reverse

  /** An entry of a reverse list: T, or *T when pointer holds. */
  datatype Implementer = Implementer(pointer: bool, subject: TypeEntry)

  /** A reverse heading and its list: "I is implemented by...". */
  datatype InterfaceGroup = InterfaceGroup(iface: Interface, implementers: seq<Implementer>)

  /** What one subject contributes to i's list: T first, then *T. */
  function SubjectEntries(i: Interface, t: TypeEntry): (r: seq<Implementer>)
    ensures forall e :: e in r ==> e.subject == t && Listed(e.pointer, t, i)
    ensures |r| == 2 ==> !r[0].pointer && r[1].pointer
  {
    (if Listed(false, t, i) then [Implementer(false, t)] else [])
    + (if Listed(true, t, i) then [Implementer(true, t)] else [])
  }

  /** The subjects of toCheck listed against i, in the order of toCheck. */
  function ImplementedBy(i: Interface, toCheck: seq<TypeEntry>): seq<Implementer>
    decreases |toCheck|
  {
    if toCheck == [] then []
    else ImplementedBy(i, toCheck[..|toCheck| - 1]) + SubjectEntries(i, toCheck[|toCheck| - 1])
  }

  /** The heading of one interface, only when its list is non-empty. */
  function InterfaceGroups(i: Interface, toCheck: seq<TypeEntry>): seq<InterfaceGroup> {
    var implementedBy := ImplementedBy(i, toCheck);
    if |implementedBy| > 0 then [InterfaceGroup(i, implementedBy)] else []
  }

  /** The reverse report: the heading of every interface of ifaces, in order. */
  function ReverseReport(ifaces: seq<Interface>, toCheck: seq<TypeEntry>): seq<InterfaceGroup>
    decreases |ifaces|
  {
    if ifaces == [] then []
    else ReverseReport(ifaces[..|ifaces| - 1], toCheck) + InterfaceGroups(ifaces[|ifaces| - 1], toCheck)
  }

  /** The reverse report lists T (or *T) under the heading of i. */
  predicate ReverseRelates(report: seq<InterfaceGroup>, pointer: bool, t: TypeEntry, i: Interface) {
    exists g :: g in report && g.iface == i && Implementer(pointer, t) in g.implementers
  }

  /** The inner loop of listImplementers: the subjects listed against one interface. */
  method ImplementersOf(iface: Interface, toCheck: seq<TypeEntry>) returns (implementedBy: seq<Implementer>)
    ensures implementedBy == ImplementedBy(iface, toCheck)
  {
    implementedBy := [];
    for j := 0 to |toCheck|
      invariant implementedBy == ImplementedBy(iface, toCheck[..j])
    {
      var typ := toCheck[j];
      assert toCheck[..j + 1][..j] == toCheck[..j];
      if iface.required == {} {
        continue;
      }
      if typ.pkg == iface.obj.pkg && typ.name == iface.name {
        continue;
      }
      if DoesImplement(typ.MethodSet(), iface.required) {
        implementedBy := implementedBy + [Implementer(false, typ)];
      }
      if !typ.IsInterface() {
        if DoesImplement(typ.PointerMethodSet(), iface.required) {
          implementedBy := implementedBy + [Implementer(true, typ)];
        }
      }
    }
    assert toCheck[..|toCheck|] == toCheck;
  }

  /** listImplementers */
  method ListImplementers(universe: seq<TypeEntry>, toCheck: seq<TypeEntry>)
    returns (report: seq<InterfaceGroup>)
    ensures report == ReverseReport(InterfacesOf(universe), toCheck)
  {
    var interfaces := GetInterfaces(universe);
    report := [];
    for k := 0 to |interfaces|
      invariant report == ReverseReport(interfaces[..k], toCheck)
    {
      var iface := interfaces[k];
      var implementedBy := ImplementersOf(iface, toCheck);
      assert interfaces[..k + 1][..k] == interfaces[..k];
      if |implementedBy| > 0 {
        report := report + [InterfaceGroup(iface, implementedBy)];
      }
    }
    assert interfaces[..|interfaces|] == interfaces;
  }
}
