/**
 * What the two report orders promise: which pairs they list, in which order,
 * that they agree with each other, and the skip rules they share.
 */
module ReportProperties {
  import opened GoTypes
  import opened Interfaces
  import opened Report

  // ------------------------------------------------ the per-subject and per-interface lists

  /** T's (or *T's) list holds exactly the interfaces of ifaces it is listed against. */
  lemma {:induction false} ImplementsMembership(pointer: bool, t: TypeEntry, ifaces: seq<Interface>, i: Interface)
    ensures i in Implements(pointer, t, ifaces) <==> i in ifaces && Listed(pointer, t, i)
    decreases |ifaces|
  {
    if ifaces != [] {
      var init := ifaces[..|ifaces| - 1];
      assert ifaces == init + [ifaces[|ifaces| - 1]];
      ImplementsMembership(pointer, t, init, i);
    }
  }

  /** Forward lists follow the order of the interface universe. */
  lemma {:induction false} ImplementsAppend(pointer: bool, t: TypeEntry, a: seq<Interface>, b: seq<Interface>)
    ensures Implements(pointer, t, a + b) == Implements(pointer, t, a) + Implements(pointer, t, b)
    decreases |b|
  {
    if b == [] {
      assert a + b == a;
    } else {
      assert (a + b)[..|a + b| - 1] == a + b[..|b| - 1];
      ImplementsAppend(pointer, t, a, b[..|b| - 1]);
    }
  }

  /** i's list holds exactly the variants of subjects of toCheck listed against i. */
  lemma {:induction false} ImplementedByMembership(i: Interface, toCheck: seq<TypeEntry>, e: Implementer)
    ensures e in ImplementedBy(i, toCheck) <==> e.subject in toCheck && Listed(e.pointer, e.subject, i)
    decreases |toCheck|
  {
    if toCheck != [] {
      var init, last := toCheck[..|toCheck| - 1], toCheck[|toCheck| - 1];
      assert toCheck == init + [last];
      ImplementedByMembership(i, init, e);
      if e.subject == last && Listed(e.pointer, e.subject, i) {
        assert e == Implementer(e.pointer, last);
      }
    }
  }

  /** Reverse lists follow the order of toCheck. */
  lemma {:induction false} ImplementedByAppend(i: Interface, a: seq<TypeEntry>, b: seq<TypeEntry>)
    ensures ImplementedBy(i, a + b) == ImplementedBy(i, a) + ImplementedBy(i, b)
    decreases |b|
  {
    if b == [] {
      assert a + b == a;
    } else {
      assert (a + b)[..|a + b| - 1] == a + b[..|b| - 1];
      ImplementedByAppend(i, a, b[..|b| - 1]);
    }
  }

  /** Within a reverse list, a subject's entries sit at its place in toCheck, T before *T. */
  lemma ImplementedByAt(i: Interface, a: seq<TypeEntry>, t: TypeEntry, b: seq<TypeEntry>)
    ensures ImplementedBy(i, a + [t] + b) == ImplementedBy(i, a) + SubjectEntries(i, t) + ImplementedBy(i, b)
  {
    ImplementedByAppend(i, a + [t], b);
    ImplementedByAppend(i, a, [t]);
    assert ImplementedBy(i, [t]) == SubjectEntries(i, t) by {
      assert [t][..0] == [];
    }
  }

  // ------------------------------------------------ the reports

  /** Every forward heading belongs to a subject of toCheck and carries that variant's whole, non-empty list. */
  lemma {:induction false} ForwardGroupsWellFormed(ifaces: seq<Interface>, toCheck: seq<TypeEntry>)
    ensures forall g :: g in ForwardReport(ifaces, toCheck) ==>
      && g.subject in toCheck
      && g.interfaces == Implements(g.pointer, g.subject, ifaces)
      && |g.interfaces| > 0
    decreases |toCheck|
  {
    if toCheck != [] {
      var init := toCheck[..|toCheck| - 1];
      assert toCheck == init + [toCheck[|toCheck| - 1]];
      ForwardGroupsWellFormed(ifaces, init);
    }
  }

  /** A subject has a forward heading for a variant exactly when that variant's list is non-empty. */
  lemma {:induction false} ForwardGroupPresent(ifaces: seq<Interface>, toCheck: seq<TypeEntry>, pointer: bool, t: TypeEntry)
    requires t in toCheck && |Implements(pointer, t, ifaces)| > 0
    ensures SubjectGroup(pointer, t, Implements(pointer, t, ifaces)) in ForwardReport(ifaces, toCheck)
    decreases |toCheck|
  {
    var init, last := toCheck[..|toCheck| - 1], toCheck[|toCheck| - 1];
    assert toCheck == init + [last];
    if t != last {
      ForwardGroupPresent(ifaces, init, pointer, t);
    }
  }

  /** Every reverse heading belongs to an interface of ifaces and carries its whole, non-empty list. */
  lemma {:induction false} ReverseGroupsWellFormed(ifaces: seq<Interface>, toCheck: seq<TypeEntry>)
    ensures forall g :: g in ReverseReport(ifaces, toCheck) ==>
      && g.iface in ifaces
      && g.implementers == ImplementedBy(g.iface, toCheck)
      && |g.implementers| > 0
    decreases |ifaces|
  {
    if ifaces != [] {
      var init := ifaces[..|ifaces| - 1];
      assert ifaces == init + [ifaces[|ifaces| - 1]];
      ReverseGroupsWellFormed(init, toCheck);
    }
  }

  /** An interface has a reverse heading exactly when its list is non-empty. */
  lemma {:induction false} ReverseGroupPresent(ifaces: seq<Interface>, toCheck: seq<TypeEntry>, i: Interface)
    requires i in ifaces && |ImplementedBy(i, toCheck)| > 0
    ensures InterfaceGroup(i, ImplementedBy(i, toCheck)) in ReverseReport(ifaces, toCheck)
    decreases |ifaces|
  {
    var init, last := ifaces[..|ifaces| - 1], ifaces[|ifaces| - 1];
    assert ifaces == init + [last];
    if i != last {
      ReverseGroupPresent(init, toCheck, i);
    }
  }

  /** The forward report lists exactly the pairs the shared rules admit. */
  lemma ForwardReportMembership(ifaces: seq<Interface>, toCheck: seq<TypeEntry>, pointer: bool, t: TypeEntry, i: Interface)
    ensures ForwardRelates(ForwardReport(ifaces, toCheck), pointer, t, i)
        <==> t in toCheck && i in ifaces && Listed(pointer, t, i)
  {
    var report := ForwardReport(ifaces, toCheck);
    ImplementsMembership(pointer, t, ifaces, i);
    ForwardGroupsWellFormed(ifaces, toCheck);
    if t in toCheck && i in ifaces && Listed(pointer, t, i) {
      ForwardGroupPresent(ifaces, toCheck, pointer, t);
      assert SubjectGroup(pointer, t, Implements(pointer, t, ifaces)) in report;
    }
  }

  /** The reverse report lists exactly the pairs the shared rules admit. */
  lemma ReverseReportMembership(ifaces: seq<Interface>, toCheck: seq<TypeEntry>, pointer: bool, t: TypeEntry, i: Interface)
    ensures ReverseRelates(ReverseReport(ifaces, toCheck), pointer, t, i)
        <==> t in toCheck && i in ifaces && Listed(pointer, t, i)
  {
    var report := ReverseReport(ifaces, toCheck);
    ImplementedByMembership(i, toCheck, Implementer(pointer, t));
    ReverseGroupsWellFormed(ifaces, toCheck);
    if t in toCheck && i in ifaces && Listed(pointer, t, i) {
      ReverseGroupPresent(ifaces, toCheck, i);
      assert InterfaceGroup(i, ImplementedBy(i, toCheck)) in report;
    }
  }

  /**
   * Forward and reverse runs over the same universe and subjects agree: T
   * (or *T) is listed under its own heading against I exactly when it is
   * listed under I's heading.
   */
  lemma ReportsAgree(universe: seq<TypeEntry>, toCheck: seq<TypeEntry>, pointer: bool, t: TypeEntry, i: Interface)
    ensures ForwardRelates(ForwardReport(InterfacesOf(universe), toCheck), pointer, t, i)
        <==> ReverseRelates(ReverseReport(InterfacesOf(universe), toCheck), pointer, t, i)
  {
    ForwardReportMembership(InterfacesOf(universe), toCheck, pointer, t, i);
    ReverseReportMembership(InterfacesOf(universe), toCheck, pointer, t, i);
  }

  /** Forward headings follow the order of toCheck. */
  lemma {:induction false} ForwardReportAppend(ifaces: seq<Interface>, a: seq<TypeEntry>, b: seq<TypeEntry>)
    ensures ForwardReport(ifaces, a + b) == ForwardReport(ifaces, a) + ForwardReport(ifaces, b)
    decreases |b|
  {
    if b == [] {
      assert a + b == a;
    } else {
      assert (a + b)[..|a + b| - 1] == a + b[..|b| - 1];
      ForwardReportAppend(ifaces, a, b[..|b| - 1]);
    }
  }

  /** Reverse headings follow the order of the interface universe. */
  lemma {:induction false} ReverseReportAppend(a: seq<Interface>, b: seq<Interface>, toCheck: seq<TypeEntry>)
    ensures ReverseReport(a + b, toCheck) == ReverseReport(a, toCheck) + ReverseReport(b, toCheck)
    decreases |b|
  {
    if b == [] {
      assert a + b == a;
    } else {
      assert (a + b)[..|a + b| - 1] == a + b[..|b| - 1];
      ReverseReportAppend(a, b[..|b| - 1], toCheck);
    }
  }

  // ------------------------------------------------ the skip rules

  /** An interface without methods is never reported, in either order. */
  lemma EmptyInterfaceNeverReported(ifaces: seq<Interface>, toCheck: seq<TypeEntry>, i: Interface)
    requires i.required == {}
    ensures forall g :: g in ForwardReport(ifaces, toCheck) ==> i !in g.interfaces
    ensures forall g :: g in ReverseReport(ifaces, toCheck) ==> g.iface != i
  {
    ForwardGroupsWellFormed(ifaces, toCheck);
    forall g | g in ForwardReport(ifaces, toCheck)
      ensures i !in g.interfaces
    {
      ImplementsMembership(g.pointer, g.subject, ifaces, i);
    }
    ReverseGroupsWellFormed(ifaces, toCheck);
    forall g | g in ReverseReport(ifaces, toCheck)
      ensures g.iface != i
    {
      if g.iface == i {
        var e := g.implementers[0];
        ImplementedByMembership(i, toCheck, e);
      }
    }
  }

  /** No subject is reported against an interface of its own package and name, in either order. */
  lemma NoSelfMatch(ifaces: seq<Interface>, toCheck: seq<TypeEntry>)
    ensures forall g, i :: g in ForwardReport(ifaces, toCheck) && i in g.interfaces ==>
      !(g.subject.pkg == i.obj.pkg && g.subject.name == i.name)
    ensures forall g, e :: g in ReverseReport(ifaces, toCheck) && e in g.implementers ==>
      !(e.subject.pkg == g.iface.obj.pkg && e.subject.name == g.iface.name)
  {
    ForwardGroupsWellFormed(ifaces, toCheck);
    forall g, i | g in ForwardReport(ifaces, toCheck) && i in g.interfaces
      ensures !(g.subject.pkg == i.obj.pkg && g.subject.name == i.name)
    {
      ImplementsMembership(g.pointer, g.subject, ifaces, i);
    }
    ReverseGroupsWellFormed(ifaces, toCheck);
    forall g, e | g in ReverseReport(ifaces, toCheck) && e in g.implementers
      ensures !(e.subject.pkg == g.iface.obj.pkg && e.subject.name == g.iface.name)
    {
      ImplementedByMembership(g.iface, toCheck, e);
    }
  }

  /** *T is only ever reported for a subject that is not an interface, in either order. */
  lemma PointerOnlyForConcrete(ifaces: seq<Interface>, toCheck: seq<TypeEntry>)
    ensures forall g :: g in ForwardReport(ifaces, toCheck) && g.pointer ==> !g.subject.IsInterface()
    ensures forall g, e :: g in ReverseReport(ifaces, toCheck) && e in g.implementers && e.pointer ==>
      !e.subject.IsInterface()
  {
    ForwardGroupsWellFormed(ifaces, toCheck);
    forall g | g in ForwardReport(ifaces, toCheck) && g.pointer
      ensures !g.subject.IsInterface()
    {
      var i := g.interfaces[0];
      ImplementsMembership(true, g.subject, ifaces, i);
    }
    ReverseGroupsWellFormed(ifaces, toCheck);
    forall g, e | g in ReverseReport(ifaces, toCheck) && e in g.implementers && e.pointer
      ensures !e.subject.IsInterface()
    {
      ImplementedByMembership(g.iface, toCheck, e);
    }
  }

  /**
   * Whatever T is reported against, *T is reported against too when T is
   * not an interface: the pointer method set only adds methods.
   */
  lemma PointerVariantSuperset(universe: seq<TypeEntry>, toCheck: seq<TypeEntry>, t: TypeEntry, i: Interface)
    requires !t.IsInterface()
    ensures ForwardRelates(ForwardReport(InterfacesOf(universe), toCheck), false, t, i) ==>
      ForwardRelates(ForwardReport(InterfacesOf(universe), toCheck), true, t, i)
    ensures ReverseRelates(ReverseReport(InterfacesOf(universe), toCheck), false, t, i) ==>
      ReverseRelates(ReverseReport(InterfacesOf(universe), toCheck), true, t, i)
  {
    ForwardReportMembership(InterfacesOf(universe), toCheck, false, t, i);
    ForwardReportMembership(InterfacesOf(universe), toCheck, true, t, i);
    ReverseReportMembership(InterfacesOf(universe), toCheck, false, t, i);
    ReverseReportMembership(InterfacesOf(universe), toCheck, true, t, i);
  }

  // ------------------------------------------------ worked scenarios

  /**
   * Fooer requires Foo; Bar declares Foo with a value receiver, Baz with a
   * pointer receiver only. Bar and *Bar implement Fooer; Baz does not,
   * *Baz does.
   */
  lemma ValueAndPointerReceivers(pkg: Package)
    ensures var fooer := TypeEntry(pkg, "Fooer", InterfaceType({"Foo()"}));
            var bar := TypeEntry(pkg, "Bar", ConcreteType({"Foo()"}, {}));
            var baz := TypeEntry(pkg, "Baz", ConcreteType({}, {"Foo()"}));
            ForwardReport(InterfacesOf([fooer]), [bar, baz])
              == [ SubjectGroup(false, bar, [InterfaceOf(fooer)]),
                   SubjectGroup(true, bar, [InterfaceOf(fooer)]),
                   SubjectGroup(true, baz, [InterfaceOf(fooer)]) ]
  {
    var fooer := TypeEntry(pkg, "Fooer", InterfaceType({"Foo()"}));
    var bar := TypeEntry(pkg, "Bar", ConcreteType({"Foo()"}, {}));
    var baz := TypeEntry(pkg, "Baz", ConcreteType({}, {"Foo()"}));
    assert [fooer][..0] == [];
    var ifaces := [InterfaceOf(fooer)];
    assert InterfacesOf([fooer]) == ifaces;
    assert ifaces[..0] == [];
    assert Implements(false, bar, ifaces) == ifaces;
    assert Implements(true, bar, ifaces) == ifaces;
    assert Implements(false, baz, ifaces) == [];
    assert Implements(true, baz, ifaces) == ifaces;
    assert [bar, baz][..1] == [bar];
    assert [bar][..0] == [];
    assert ForwardReport(ifaces, [bar]) == SubjectGroups(bar, ifaces);
    assert ForwardReport(ifaces, [bar, baz]) == SubjectGroups(bar, ifaces) + SubjectGroups(baz, ifaces);
  }

  /** An interface with no methods gets no reverse heading even though every subject satisfies it. */
  lemma EmptyInterfaceHasNoHeading(pkg: Package)
    ensures var empty := TypeEntry(pkg, "Empty", InterfaceType({}));
            var bar := TypeEntry(pkg, "Bar", ConcreteType({"Foo()"}, {}));
            ReverseReport(InterfacesOf([empty]), [bar]) == []
  {
    var empty := TypeEntry(pkg, "Empty", InterfaceType({}));
    var bar := TypeEntry(pkg, "Bar", ConcreteType({"Foo()"}, {}));
    assert [empty][..0] == [];
    var ifaces := [InterfaceOf(empty)];
    assert InterfacesOf([empty]) == ifaces;
    assert ifaces[..0] == [];
    assert [bar][..0] == [];
    assert ImplementedBy(ifaces[0], [bar]) == [];
  }
}
