/** Failure-carrying results, options and first-match lookup, shared by every module. */
module Prelude {

  datatype Option<+T> = None | Some(value: T)

  datatype Result<+T, +E> = Ok(value: T) | Err(error: E) {
    predicate IsFailure() {
      Err?
    }

    function PropagateFailure<U>(): Result<U, E>
      requires Err?
    {
      Err(error)
    }

    function Extract(): T
      requires Ok?
    {
      value
    }
  }

  /** The first element whose name matches, as every `iter().find(..)` by name returns it. */
  function Lookup<T>(xs: seq<T>, nameOf: T -> string, name: string): (r: Option<T>)
    ensures r.Some? ==> r.value in xs && nameOf(r.value) == name
    ensures r.None? ==> forall x :: x in xs ==> nameOf(x) != name
  {
    if xs == [] then None
    else if nameOf(xs[0]) == name then Some(xs[0])
    else Lookup(xs[1..], nameOf, name)
  }

  /** No earlier element has the name. */
  ghost predicate FirstNamed<T>(xs: seq<T>, nameOf: T -> string, name: string, i: nat) {
    i < |xs| && nameOf(xs[i]) == name && forall j :: 0 <= j < i ==> nameOf(xs[j]) != name
  }

  lemma {:induction false} LookupIsFirst<T>(xs: seq<T>, nameOf: T -> string, name: string)
    ensures match Lookup(xs, nameOf, name)
            case None => forall i :: 0 <= i < |xs| ==> nameOf(xs[i]) != name
            case Some(x) => exists i: nat :: FirstNamed(xs, nameOf, name, i) && xs[i] == x
  {
    if xs != [] {
      if nameOf(xs[0]) == name {
        assert FirstNamed(xs, nameOf, name, 0);
      } else {
        LookupIsFirst(xs[1..], nameOf, name);
        if Lookup(xs, nameOf, name).Some? {
          var i: nat :| FirstNamed(xs[1..], nameOf, name, i) && xs[1..][i] == Lookup(xs, nameOf, name).value;
          forall j | 0 <= j < i + 1
            ensures nameOf(xs[j]) != name
          {
            if j > 0 {
              assert xs[1..][j - 1] == xs[j];
            }
          }
          assert xs[i + 1] == xs[1..][i];
          assert FirstNamed(xs, nameOf, name, i + 1);
        }
      }
    }
  }

  predicate UniqueNames<T>(xs: seq<T>, nameOf: T -> string) {
    forall i, j :: 0 <= i < j < |xs| ==> nameOf(xs[i]) != nameOf(xs[j])
  }

  /** With unique names, lookup is membership. */
  lemma LookupUnique<T>(xs: seq<T>, nameOf: T -> string, x: T)
    requires UniqueNames(xs, nameOf)
    requires x in xs
    ensures Lookup(xs, nameOf, nameOf(x)) == Some(x)
  {
    var r := Lookup(xs, nameOf, nameOf(x));
    var i :| 0 <= i < |xs| && xs[i] == x;
    var j :| 0 <= j < |xs| && xs[j] == r.value;
  }

  /** The first element of a list without a property, the ones before it having it. */
  ghost predicate FirstWithout<T>(xs: seq<T>, has: T -> bool, i: nat) {
    i < |xs| && !has(xs[i]) && forall j :: 0 <= j < i ==> has(xs[j])
  }

  lemma FirstLater<T>(xs: seq<T>, has: T -> bool, i: nat)
    requires xs != [] && has(xs[0]) && FirstWithout(xs[1..], has, i)
    ensures FirstWithout(xs, has, i + 1) && xs[i + 1] == xs[1..][i]
  {
    forall j | 0 <= j < i + 1
      ensures has(xs[j])
    {
      if j > 0 {
        assert xs[1..][j - 1] == xs[j];
      }
    }
  }

  predicate NoDuplicates<T(==)>(xs: seq<T>) {
    forall i, j :: 0 <= i < j < |xs| ==> xs[i] != xs[j]
  }

  function IndexOf<T(==)>(xs: seq<T>, x: T): (i: nat)
    requires x in xs
    ensures i < |xs| && xs[i] == x
    ensures forall j :: 0 <= j < i ==> xs[j] != x
  {
    if xs[0] == x then 0 else 1 + IndexOf(xs[1..], x)
  }

  // ----- text -----

  /** Unicode white space, as `trim` removes it. */
  predicate IsWhitespace(c: char) {
    var n := c as int;
    0x9 <= n <= 0xD || n == 0x20 || n == 0x85 || n == 0xA0 || n == 0x1680 || 0x2000 <= n <= 0x200A
    || n == 0x2028 || n == 0x2029 || n == 0x202F || n == 0x205F || n == 0x3000
  }

  /** `trim().is_empty()`. */
  predicate Blank(s: string) {
    forall i :: 0 <= i < |s| ==> IsWhitespace(s[i])
  }

  function Utf8Width(c: char): nat {
    var n := c as int;
    if n < 0x80 then 1 else if n < 0x800 then 2 else if n < 0x10000 then 3 else 4
  }

  /** Length in bytes. */
  function Utf8Length(s: string): nat {
    if s == [] then 0 else Utf8Width(s[0]) + Utf8Length(s[1..])
  }

  predicate IsDigit(c: char) { '0' <= c <= '9' }

  function DigitValue(c: char): nat
    requires IsDigit(c)
  {
    c as int - '0' as int
  }

  function Digit(n: nat): (c: char)
    requires n < 10
    ensures IsDigit(c) && DigitValue(c) == n
  {
    ('0' as int + n) as char
  }
}
