/** Identifiers, optional values, the failures the services raise, and a few facts about sets. */
module Common {

  /** A generated primary key (a Java `Long`). */
  type Id = int

  /** A Java reference that may be null. */
  datatype Option<T> = None | Some(value: T) {
    function GetOr(default: T): T {
      match this
      case Some(v) => v
      case None => default
    }
  }

  /** The exceptions that end a service call. */
  datatype Error =
    | NoSuchElement            // Optional.get() on an empty Optional
    | NullPointer              // a method called on a null collection
    | InvalidDataAccessApiUsage // a repository lookup given a null id, as the repository proxy reports it
    | IncorrectResultSize      // a single-result query matched more than one row
    | UsernameNotFound(message: string)
    | DataIntegrityViolation   // the store's unique constraint refused a write
    | EntityNotFound           // a stored association names a row that is gone
    | AccessDenied             // a @PreAuthorize rule evaluated to false
    | MethodArgumentNotValid   // a request body annotated @Valid broke one of its constraints
    | EmptyResultDataAccess    // deleteById given an id that has no row

  /** The outcome of an operation that either returns a value or throws. */
  datatype Result<T> = Ok(value: T) | Err(error: Error) {
    predicate IsFailure() {
      Err?
    }

    function PropagateFailure<U>(): Result<U>
      requires Err?
    {
      Err(error)
    }

    function Extract(): T
      requires Ok?
    {
      value
    }
  }

  /** Bean Validation's @NotBlank: not empty after trimming the characters up to and including space. */
  predicate NotBlank(s: string) {
    exists i :: 0 <= i < |s| && s[i] > ' '
  }

  /** Every two elements of `s` are the same one. */
  predicate AtMostOne(s: set<Id>) {
    forall a, b :: a in s && b in s ==> a == b
  }

  /** A set is empty or has an element to pick. */
  lemma Inhabited(s: set<Id>)
    ensures s == {} || exists x :: x in s
  {
    if forall x :: x !in s {
      assert s == {};
    }
  }

  lemma SingletonIsAtMostOne(s: set<Id>)
    requires |s| == 1
    ensures AtMostOne(s)
  {
    Inhabited(s);
    var x :| x in s;
    assert |s - {x}| == 0;
    assert s - {x} == {};
  }

  lemma OnlyElement(s: set<Id>, x: Id)
    requires AtMostOne(s) && x in s
    ensures s == {x}
  {
    assert forall y :: y in s <==> y in {x};
  }

  lemma AtMostOneIsSmall(s: set<Id>)
    requires AtMostOne(s)
    ensures |s| <= 1
  {
    if s != {} {
      Inhabited(s);
      var x :| x in s;
      OnlyElement(s, x);
    }
  }

  /** The only element of a one-element set. */
  function TheOnly(s: set<Id>): (k: Id)
    requires |s| == 1
    ensures s == {k}
  {
    Inhabited(s);
    SingletonIsAtMostOne(s);
    var k :| k in s;
    OnlyElement(s, k);
    k
  }

  /** The values a map holds under the keys `ks`. */
  function Image<V>(m: map<Id, V>, ks: set<Id>): set<V>
    requires ks <= m.Keys
  {
    set k | k in ks :: m[k]
  }

  /** Looking up the keys `ks` of a map that holds a different value under every key loses no element. */
  lemma {:induction false} ImageCardinality<V>(m: map<Id, V>, ks: set<Id>)
    requires ks <= m.Keys
    requires forall a, b :: a in ks && b in ks && m[a] == m[b] ==> a == b
    ensures |Image(m, ks)| == |ks|
  {
    if ks == {} {
      assert forall v :: v !in Image(m, ks);
      assert Image(m, ks) == {};
    } else {
      Inhabited(ks);
      var x :| x in ks;
      var rest := ks - {x};
      ImageCardinality(m, rest);
      assert forall v :: v in Image(m, ks) <==> v in Image(m, rest) + {m[x]};
      assert Image(m, ks) == Image(m, rest) + {m[x]};
      assert m[x] !in Image(m, rest);
    }
  }
}
