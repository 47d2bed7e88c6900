/** Python values as far as the readiness test of `run_until_complete` can
    tell them apart, and Python's truthiness on them. */
module PyValue {

  /** A result returned by a task's function: None, a bool, an int, a str,
      a list or a tuple of values. */
  datatype Value =
    | VNone
    | VBool(b: bool)
    | VInt(i: int)
    | VStr(s: string)
    | VList(elems: seq<Value>)
    | VTuple(fields: seq<Value>)

  /** Python's `bool(v)`: None, False, 0, "" and empty containers are falsy,
      everything else is truthy. Containers are not looked into. */
  predicate Truthy(v: Value)
  {
    match v
    case VNone => false
    case VBool(b) => b
    case VInt(i) => i != 0
    case VStr(s) => s != ""
    case VList(elems) => |elems| > 0
    case VTuple(fields) => |fields| > 0
  }

  /** Python's built-in `all` over a tuple's fields: each one truthy, one level deep. */
  predicate All(fields: seq<Value>)
  {
    forall i :: 0 <= i < |fields| ==> Truthy(fields[i])
  }

  /** The loop condition of `run_until_complete` exactly as written.
      Python's `and` binds tighter than `or`, so the list clause is a
      conjunct of the tuple clause only. */
  predicate KeepsRetrying(result: Value)
  {
    !Truthy(result)
    || ((result.VTuple? && !All(result.fields)) && !(result.VList? && !Truthy(result)))
  }

  /** What the loop condition means: the value is falsy, or it is a tuple
      with some falsy field. */
  predicate NotReady(v: Value)
  {
    !Truthy(v) || (v.VTuple? && exists i :: 0 <= i < |v.fields| && !Truthy(v.fields[i]))
  }

  predicate Ready(v: Value)
  {
    !NotReady(v)
  }

  /** The loop keeps going exactly when the value is not ready; the
      `isinstance(result, list)` clause never changes the decision. */
  lemma KeepsRetryingIffNotReady(v: Value)
    ensures KeepsRetrying(v) <==> NotReady(v)
    ensures KeepsRetrying(v) <==> (!Truthy(v) || (v.VTuple? && !All(v.fields)))
  {
  }

  /** A ready value is truthy, and when it is a tuple every field is truthy. */
  lemma ReadyMeans(v: Value)
    requires Ready(v)
    ensures Truthy(v)
    ensures v.VTuple? ==> |v.fields| > 0 && All(v.fields)
  {
  }

  /** The falsy values a task can return to say "not yet": None, False, 0,
      the empty string and the empty list and tuple. */
  lemma FalsyValuesAreNotReady(v: Value)
    requires v == VNone || v == VBool(false) || v == VInt(0) || v == VStr("")
          || v == VList([]) || v == VTuple([])
    ensures NotReady(v)
  {
  }

  /** A tuple with a falsy field at position k is not ready, whatever its
      other fields hold. */
  lemma PartialTupleIsNotReady(fields: seq<Value>, k: nat)
    requires k < |fields| && !Truthy(fields[k])
    ensures NotReady(VTuple(fields))
  {
  }

  /** Fields are tested one level deep only: a tuple whose only field is a
      non-empty tuple of falsy values is ready. */
  lemma NestedFieldsNotInspected(inner: seq<Value>)
    requires |inner| > 0
    ensures Ready(VTuple([VTuple(inner)]))
  {
  }

  /** A non-empty list is ready even when all of its elements are falsy:
      only tuples have their elements inspected. */
  lemma ListElementsNotInspected(elems: seq<Value>)
    requires |elems| > 0
    ensures Ready(VList(elems))
  {
  }
}
