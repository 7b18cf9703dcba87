/** Optional values, used for the outcome of foreign calls that may fail. */
module Wrappers {
  datatype Option<+T> = None | Some(value: T)
}

/**
 * The Go declarations the relation computation works on: packages, the
 * named types of their scopes, method sets and the satisfaction test.
 *
 * A method is abstracted to a single token standing for its name together
 * with its signature: two methods are the same method exactly when their
 * tokens are equal. Method sets follow the section "Method sets" of the Go
 * Programming Language Specification: the method set of an interface type
 * is its interface, that of a defined type T holds the methods declared with
 * receiver T, and that of *T additionally the methods declared with receiver
 * *T. A pointer to an interface type has an empty method set.
 */
module GoTypes {

  type Method = string

  /**
   * A type-checked package. Packages are objects: the source compares them
   * by identity, and a package that is re-created (as the importer does to
   * mark one complete) is a different package from the one it was made from.
   */
  class Package {
    const path: string
    const name: string
    const scope: seq<ScopeEntry>
    const complete: bool

    constructor (path: string, name: string, scope: seq<ScopeEntry>, complete: bool)
      ensures this.path == path && this.name == name
      ensures this.scope == scope && this.complete == complete
    {
      this.path := path;
      this.name := name;
      this.scope := scope;
      this.complete := complete;
    }
  }

  /** The underlying type of a named type: an interface, or anything else. */
  datatype Underlying =
    | InterfaceType(methods: set<Method>)
    | ConcreteType(valueMethods: set<Method>, pointerMethods: set<Method>)

  /**
   * A named type declared in a package scope, with the derived pointer
   * variant *T reached through PointerMethodSet.
   */
  datatype TypeEntry = TypeEntry(pkg: Package, name: string, underlying: Underlying)
  {
    predicate IsInterface() {
      underlying.InterfaceType?
    }

    /** The method set of T itself. */
    function MethodSet(): set<Method> {
      match underlying
      case InterfaceType(methods) => methods
      case ConcreteType(valueMethods, _) => valueMethods
    }

    /** The method set of *T: the value-receiver and the pointer-receiver methods. */
    function PointerMethodSet(): (r: set<Method>)
      ensures IsInterface() ==> r == {}
      ensures !IsInterface() ==> MethodSet() <= r && underlying.pointerMethods <= r
      ensures !IsInterface() ==>
        forall m :: m in r ==> m in MethodSet() || m in underlying.pointerMethods
    {
      match underlying
      case InterfaceType(_) => {}
      case ConcreteType(valueMethods, pointerMethods) => valueMethods + pointerMethods
    }
  }

  /** An object of a package scope: a type name, or a constant, variable or function. */
  datatype ScopeEntry = TypeName(typ: TypeEntry) | OtherObject(name: string)

  /**
   * A type with the given method set implements an interface when no
   * required method is missing from it; every type implements an interface
   * without methods.
   */
  predicate DoesImplement(methods: set<Method>, required: set<Method>)
    ensures DoesImplement(methods, required) <==> forall m :: m in required ==> m in methods
    ensures required == {} ==> DoesImplement(methods, required)
  {
    required <= methods
  }
}
