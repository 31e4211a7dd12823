/** The values a form state holds, and the JavaScript coercions the synchroniser relies on. */
module FormValues {

  datatype Option<+T> = None | Some(value: T)

  /** A state value: a string, a boolean, or an ordered list of strings (a multi-value field). */
  datatype Value = Str(s: string) | Bool(b: bool) | List(items: seq<string>)

  /** The synchroniser's state: field name to value. */
  type State = map<string, Value>

  /** `state[key]`; a missing key reads as `undefined`, here `None`. */
  function Lookup(state: State, key: string): Option<Value>
  {
    if key in state then Some(state[key]) else None
  }

  /** JavaScript truthiness: `undefined`, `false` and `""` are falsy; every array is truthy. */
  predicate Truthy(v: Option<Value>)
  {
    match v
    case None => false
    case Some(Str(s)) => s != ""
    case Some(Bool(b)) => b
    case Some(List(_)) => true
  }

  /** `stored || []` where a list is expected: an array is kept, a falsy value becomes a fresh empty list.
      A truthy value that is not an array (`true`, a non-empty string) is idealised as the empty list. */
  function ListOr(v: Option<Value>): seq<string>
  {
    if v.Some? && v.value.List? then v.value.items else []
  }

  /** `Array.prototype.join(sep)`. */
  function Join(items: seq<string>, sep: string): string
  {
    if |items| == 0 then ""
    else if |items| == 1 then items[0]
    else items[0] + sep + Join(items[1..], sep)
  }

  /** Joining one more element appends the separator and that element. */
  lemma {:induction false} JoinSnoc(items: seq<string>, x: string, sep: string)
    ensures Join(items + [x], sep) == if items == [] then x else Join(items, sep) + sep + x
  {
    if |items| > 1 {
      assert (items + [x])[1..] == items[1..] + [x];
      JoinSnoc(items[1..], x, sep);
    } else if |items| == 1 {
      assert (items + [x])[1..] == [x];
    }
  }

  /** The string a DOM `value` property holds after being assigned a state value. */
  function ToJsString(v: Value): string
  {
    match v
    case Str(s) => s
    case Bool(b) => if b then "true" else "false"
    case List(items) => Join(items, ",")
  }

  predicate NoDuplicates(items: seq<string>)
  {
    forall i, j :: 0 <= i < j < |items| ==> items[i] != items[j]
  }

  /** `if (!list.includes(x)) list.push(x)`: a set-like append that keeps the list's order. */
  function AddUnique(items: seq<string>, x: string): (r: seq<string>)
    ensures x in r
    ensures forall y :: y in r <==> y in items || y == x
    ensures |items| <= |r| <= |items| + 1
    ensures forall i :: 0 <= i < |items| ==> r[i] == items[i]
    ensures x in items ==> r == items
    ensures NoDuplicates(items) ==> NoDuplicates(r)
  {
    if x in items then items else items + [x]
  }

  /** `list.filter(y => y !== x)`. */
  function Without(items: seq<string>, x: string): (r: seq<string>)
    ensures forall y :: y in r <==> y in items && y != x
  {
    if items == [] then []
    else (if items[0] == x then [] else [items[0]]) + Without(items[1..], x)
  }

  /** Filtering drops every occurrence of `x` and keeps every other element as often as it was. */
  lemma {:induction false} WithoutCounts(items: seq<string>, x: string)
    ensures multiset(Without(items, x)) == multiset(items)[x := 0]
  {
    if items != [] {
      WithoutCounts(items[1..], x);
      assert items == [items[0]] + items[1..];
    }
  }

  /** Filtering a list without duplicates leaves a list without duplicates. */
  lemma {:induction false} WithoutKeepsDistinct(items: seq<string>, x: string)
    ensures NoDuplicates(items) ==> NoDuplicates(Without(items, x))
  {
    if items != [] && NoDuplicates(items) {
      assert NoDuplicates(items[1..]);
      WithoutKeepsDistinct(items[1..], x);
      assert items[0] !in items[1..];
    }
  }

  /** Filtering is applied element by element, so it keeps the order of what remains. */
  lemma {:induction false} WithoutConcat(a: seq<string>, b: seq<string>, x: string)
    ensures Without(a + b, x) == Without(a, x) + Without(b, x)
  {
    if a != [] {
      assert (a + b)[1..] == a[1..] + b;
      WithoutConcat(a[1..], b, x);
    } else {
      assert a + b == b;
    }
  }

  /** Removing a value that is not there changes nothing. */
  lemma {:induction false} WithoutAbsent(items: seq<string>, x: string)
    requires x !in items
    ensures Without(items, x) == items
  {
    if items != [] {
      WithoutAbsent(items[1..], x);
      assert items == [items[0]] + items[1..];
    }
  }
}
