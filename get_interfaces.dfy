/**
 * Extraction of the interfaces from a list of type entries: the entries
 * whose underlying type is an interface, in input order, each carrying its
 * own object and name.
 */
module Interfaces {
  import opened GoTypes

  /** An interface of the universe: its name, its required method set and its object. */
  datatype Interface = Interface(name: string, required: set<Method>, obj: TypeEntry)

  function InterfaceOf(t: TypeEntry): (i: Interface)
    requires t.IsInterface()
    ensures i.obj == t && i.name == t.name && i.required == t.MethodSet()
  {
    Interface(t.name, t.underlying.methods, t)
  }

  /** What one entry contributes: its interface when it is one, nothing otherwise. */
  function Picked(t: TypeEntry): seq<Interface> {
    if t.IsInterface() then [InterfaceOf(t)] else []
  }

  /** The interfaces among typs, in the order of typs. */
  function InterfacesOf(typs: seq<TypeEntry>): seq<Interface>
    decreases |typs|
  {
    if typs == [] then [] else InterfacesOf(typs[..|typs| - 1]) + Picked(typs[|typs| - 1])
  }

  /** An interface is extracted exactly when some interface entry of the input yields it. */
  lemma {:induction false} InterfacesOfMembership(typs: seq<TypeEntry>, i: Interface)
    ensures i in InterfacesOf(typs) <==>
      exists t :: t in typs && t.IsInterface() && i == InterfaceOf(t)
    decreases |typs|
  {
    if typs != [] {
      var init, last := typs[..|typs| - 1], typs[|typs| - 1];
      assert typs == init + [last];
      InterfacesOfMembership(init, i);
      if i in InterfacesOf(typs) && i !in InterfacesOf(init) {
        assert last.IsInterface() && i == InterfaceOf(last);
      }
      if exists t :: t in typs && t.IsInterface() && i == InterfaceOf(t) {
        var t :| t in typs && t.IsInterface() && i == InterfaceOf(t);
        if t != last {
          assert t in init;
        }
      }
    }
  }

  /** Extraction keeps the input order: it distributes over concatenation. */
  lemma {:induction false} InterfacesOfAppend(a: seq<TypeEntry>, b: seq<TypeEntry>)
    ensures InterfacesOf(a + b) == InterfacesOf(a) + InterfacesOf(b)
    decreases |b|
  {
    if b == [] {
      assert a + b == a;
    } else {
      var init, last := b[..|b| - 1], b[|b| - 1];
      assert (a + b)[..|a + b| - 1] == a + init;
      InterfacesOfAppend(a, init);
    }
  }

  /** getInterfaces: scans the entries and appends each interface it meets. */
  method GetInterfaces(typs: seq<TypeEntry>) returns (interfaces: seq<Interface>)
    ensures interfaces == InterfacesOf(typs)
  {
    interfaces := [];
    for k := 0 to |typs|
      invariant interfaces == InterfacesOf(typs[..k])
    {
      var typ := typs[k];
      assert typs[..k + 1][..k] == typs[..k];
      if typ.IsInterface() {
        interfaces := interfaces + [Interface(typ.name, typ.underlying.methods, typ)];
      }
    }
    assert typs[..|typs|] == typs;
  }
}
