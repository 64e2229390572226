/** Shared vocabulary of the services: optional values, the HTTP exceptions they throw,
    JavaScript truthiness of optional strings, and the list helpers the services build from
    `new Set(...)` and `Array.prototype.filter`. */
module Common {

  datatype Option<+T> = None | Some(value: T)

  /** The exceptions the services throw. `Internal` stands for a database error that the
      service does not catch, which reaches the client as a server error. */
  datatype Error =
    | BadRequest(message: string)
    | NotFound(message: string)
    | Conflict(message: string)
    | Forbidden(message: string)
    | Unauthorized(message: string)
    | Internal(message: string)

  datatype Result<+T> = Ok(value: T) | Err(error: Error) {
    predicate IsFailure() { Err? }

    function PropagateFailure<U>(): Result<U>
      requires Err?
    {
      Err(error)
    }

    function Extract(): T
      requires Ok?
    {
      value
    }
  }

  /** JavaScript truthiness of an optional string: `undefined`, `null` and `""` are falsy. */
  predicate Truthy(s: Option<string>) {
    s.Some? && s.value != ""
  }

  /** `x || null` for an optional string: a falsy value is stored as null. */
  function OrNull(s: Option<string>): (r: Option<string>)
    ensures r.Some? <==> Truthy(s)
    ensures r.Some? ==> r == s
  {
    if Truthy(s) then s else None
  }

  predicate NoDuplicates(xs: seq<string>) {
    forall i, j :: 0 <= i < j < |xs| ==> xs[i] != xs[j]
  }

  /** `[...new Set(xs)]`: the first occurrence of every element, in order. */
  function Dedup(xs: seq<string>): (r: seq<string>)
    ensures NoDuplicates(r)
    ensures forall x :: x in r <==> x in xs
    ensures |r| <= |xs|
    ensures |r| == |xs| <==> NoDuplicates(xs)
    ensures NoDuplicates(xs) ==> r == xs
    decreases |xs|
  {
    if xs == [] then []
    else
      var n := |xs| - 1;
      var init := Dedup(xs[..n]);
      assert xs == xs[..n] + [xs[n]];
      if xs[n] in init then
        assert xs[n] in xs[..n];
        init
      else
        assert !NoDuplicates(xs[..n]) ==> !NoDuplicates(xs);
        init + [xs[n]]
  }

  /** The position of the first occurrence of `x` in `xs`. */
  function FirstIndex(xs: seq<string>, x: string): (i: nat)
    requires x in xs
    ensures i < |xs| && xs[i] == x && x !in xs[..i]
    decreases |xs|
  {
    if xs[0] == x then 0
    else
      var i := 1 + FirstIndex(xs[1..], x);
      assert xs[..i] == [xs[0]] + xs[1..][..i - 1];
      i
  }

  /** Only one position holds the first occurrence of an element. */
  lemma FirstIndexUnique(xs: seq<string>, x: string, i: nat)
    requires i < |xs| && xs[i] == x && x !in xs[..i]
    ensures FirstIndex(xs, x) == i
  {
  }

  /** Extending a sequence does not move the first occurrence of an element already in it. */
  lemma FirstIndexInPrefix(xs: seq<string>, n: nat, e: string)
    requires n <= |xs| && e in xs[..n]
    ensures FirstIndex(xs, e) == FirstIndex(xs[..n], e) < n
  {
    var a := FirstIndex(xs[..n], e);
    assert xs[..a] == xs[..n][..a];
    FirstIndexUnique(xs, e, a);
  }

  /** `[...new Set(xs)]` lists the elements in the order of their first occurrences in `xs`.
      With the members and the absence of repeats that `Dedup` ensures, this fixes the result. */
  lemma {:induction false} DedupKeepsFirstOrder(xs: seq<string>)
    ensures forall i, j :: 0 <= i < j < |Dedup(xs)| ==> FirstIndex(xs, Dedup(xs)[i]) < FirstIndex(xs, Dedup(xs)[j])
    decreases |xs|
  {
    if xs != [] {
      var n := |xs| - 1;
      var front := xs[..n];
      var init := Dedup(front);
      DedupKeepsFirstOrder(front);
      var r := Dedup(xs);
      var last := xs[n];
      if last !in init {
        assert r == init + [last];
      } else {
        assert r == init;
      }
      forall i, j | 0 <= i < j < |r|
        ensures FirstIndex(xs, r[i]) < FirstIndex(xs, r[j])
      {
        assert r[i] == init[i];
        FirstIndexInPrefix(xs, n, r[i]);
        if j < |init| {
          assert r[j] == init[j];
          FirstIndexInPrefix(xs, n, r[j]);
          assert FirstIndex(front, init[i]) < FirstIndex(front, init[j]);
        } else {
          assert r[j] == last;
          FirstIndexUnique(xs, last, n);
        }
      }
    }
  }

  /** `ids.filter((id) => !existing.includes(id))`. */
  function Missing(ids: seq<string>, existing: set<string>): (r: seq<string>)
    ensures forall x :: x in r <==> x in ids && x !in existing
    ensures |r| == 0 <==> forall x :: x in ids ==> x in existing
    decreases |ids|
  {
    if ids == [] then []
    else
      var n := |ids| - 1;
      assert ids == ids[..n] + [ids[n]];
      var init := Missing(ids[..n], existing);
      if ids[n] in existing then init else init + [ids[n]]
  }

  /** `xs.filter(keep)`: the elements that pass, in their original order. */
  function Filter<T(!new)>(xs: seq<T>, keep: T -> bool): (r: seq<T>)
    ensures |r| <= |xs|
    ensures forall x :: x in r <==> x in xs && keep(x)
    decreases |xs|
  {
    if xs == [] then []
    else
      var n := |xs| - 1;
      assert xs == xs[..n] + [xs[n]];
      Filter(xs[..n], keep) + (if keep(xs[n]) then [xs[n]] else [])
  }

  /** `xs.join(separator)`. */
  function Join(xs: seq<string>, separator: string): string
    decreases |xs|
  {
    if xs == [] then ""
    else if |xs| == 1 then xs[0]
    else xs[0] + separator + Join(xs[1..], separator)
  }

  predicate HasPrefix(prefix: string, s: string) {
    |prefix| <= |s| && s[..|prefix|] == prefix
  }

  /** The decimal digits of a natural number, as `String(n)` writes them. */
  function DecimalString(n: nat): string
    decreases n
  {
    var digit := ["0123456789"[n % 10]];
    if n < 10 then digit else DecimalString(n / 10) + digit
  }
}
