/** Vocabulary shared by the modules. */
module Common {

  datatype Option<T> = None | Some(value: T)

  datatype Result<T, E> = Ok(value: T) | Error(error: E) {
    predicate IsFailure() { Error? }
    function PropagateFailure<U>(): Result<U, E> requires Error? { Error(error) }
    function Extract(): T requires Ok? { value }
  }

  function Flatten<T>(pieces: seq<seq<T>>): seq<T> {
    if pieces == [] then [] else Flatten(pieces[..|pieces| - 1]) + pieces[|pieces| - 1]
  }

  lemma FlattenPush<T>(s: seq<seq<T>>, x: seq<T>)
    ensures Flatten(s + [x]) == Flatten(s) + x
  {
    assert (s + [x])[..|s|] == s;
  }

  lemma {:induction false} FlattenConcat<T>(a: seq<seq<T>>, b: seq<seq<T>>)
    ensures Flatten(a + b) == Flatten(a) + Flatten(b)
    decreases |b|
  {
    if b == [] {
      assert a + b == a;
    } else {
      var n := |b| - 1;
      FlattenConcat(a, b[..n]);
      assert (a + b)[..|a + b| - 1] == a + b[..n];
      assert Flatten(a) + Flatten(b[..n]) + b[n] == Flatten(a) + (Flatten(b[..n]) + b[n]);
    }
  }

  lemma {:induction false} FlattenHead<T>(g: seq<seq<T>>)
    requires g != []
    ensures g[0] <= Flatten(g)
    decreases |g|
  {
    if |g| == 1 {
      assert Flatten(g[..0]) == [] && [] + g[0] == g[0];
    } else {
      FlattenHead(g[..|g| - 1]);
    }
  }

  lemma {:induction false} MemberOfFlatten<T>(pieces: seq<seq<T>>, k: nat, x: T)
    requires k < |pieces| && x in pieces[k]
    ensures x in Flatten(pieces)
    decreases |pieces|
  {
    if k < |pieces| - 1 {
      MemberOfFlatten(pieces[..|pieces| - 1], k, x);
    }
  }
}
