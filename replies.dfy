/**
 * What an Express handler sends back: a status code with a JSON body, or an error status with
 * a `{ message }` body.
 */
module Replies {

  datatype Reply<T> = Ok(code: int, body: T) | Error(code: int, message: string)

  /** A stored document's key: the `_id` the database assigns. */
  type Id = nat

  /** The documents `insertMany` adds: `docs` under the consecutive fresh ids starting at `start`. */
  function Inserted<D>(start: Id, docs: seq<D>): (m: map<Id, D>)
    ensures forall k :: k in m <==> start <= k < start + |docs|
    ensures forall k :: k in m ==> m[k] == At(docs, start, k)
  {
    map k | start <= k < start + |docs| :: At(docs, start, k)
  }

  /** The document that id `k` receives in a block starting at `start`. */
  function At<D>(docs: seq<D>, start: Id, k: Id): D
    requires start <= k < start + |docs|
  {
    docs[k - start]
  }

  /** One more document inserted at the end extends the inserted block by one id. */
  lemma InsertedSnoc<D>(start: Id, docs: seq<D>, d: D)
    ensures Inserted(start, docs + [d]) == Inserted(start, docs)[start + |docs| := d]
  {
    var a := Inserted(start, docs + [d]);
    var b := Inserted(start, docs)[start + |docs| := d];
    assert a.Keys == b.Keys;
    forall k | k in a
      ensures a[k] == b[k]
    {
    }
  }
}
