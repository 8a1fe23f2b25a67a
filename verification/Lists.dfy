/** Reading and writing a list at an index, for steps that are defined in every state: what they do
    outside the bounds does not matter where the index is shown to lie within. */
module Lists {

  function Put<T>(a: seq<T>, i: int, x: T): seq<T> { if 0 <= i < |a| then a[i := x] else a }

  function Get<T>(a: seq<T>, i: int, otherwise: T): T { if 0 <= i < |a| then a[i] else otherwise }

  function First<T>(a: seq<T>, otherwise: T): T { Get(a, 0, otherwise) }

  function Rest<T>(a: seq<T>): seq<T> { if a == [] then [] else a[1..] }
}
