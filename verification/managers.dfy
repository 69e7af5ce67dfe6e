/** `shop/managers.py`: the default-filtered views of products and feedback. */
module Managers {
  import opened Seqs
  import opened Store
  import opened Models

  predicate Available(row: Row<Product>) {
    row.rec.isAvailable
  }

  predicate Moderated(row: Row<Feedback>) {
    row.rec.isModerated
  }

  /** `AvailableManager.get_queryset`: the available products, in the order of the full queryset. */
  function AvailableProducts(rows: seq<Row<Product>>): (r: seq<Row<Product>>)
    ensures forall i :: 0 <= i < |r| ==> r[i].rec.isAvailable
    ensures forall i :: 0 <= i < |rows| && rows[i].rec.isAvailable ==> rows[i] in r
    ensures IsSubsequence(r, rows)
  {
    FilterIsSubsequence(rows, Available);
    Filter(rows, Available)
  }

  /** `ModeratedManager.get_queryset`: the moderated feedback, in the order of the full queryset. */
  function ModeratedFeedback(rows: seq<Row<Feedback>>): (r: seq<Row<Feedback>>)
    ensures forall i :: 0 <= i < |r| ==> r[i].rec.isModerated
    ensures forall i :: 0 <= i < |rows| && rows[i].rec.isModerated ==> rows[i] in r
    ensures IsSubsequence(r, rows)
  {
    FilterIsSubsequence(rows, Moderated);
    Filter(rows, Moderated)
  }

  /** Narrowing the available view again changes nothing, and every available row keeps all its occurrences. */
  lemma AvailableProductsIdempotent(rows: seq<Row<Product>>, row: Row<Product>)
    ensures AvailableProducts(AvailableProducts(rows)) == AvailableProducts(rows)
    ensures multiset(AvailableProducts(rows))[row] == if row.rec.isAvailable then multiset(rows)[row] else 0
  {
    FilterIdempotent(rows, Available);
    FilterCounts(rows, Available, row);
  }

  /** Narrowing the moderated view again changes nothing, and every moderated row keeps all its occurrences. */
  lemma ModeratedFeedbackIdempotent(rows: seq<Row<Feedback>>, row: Row<Feedback>)
    ensures ModeratedFeedback(ModeratedFeedback(rows)) == ModeratedFeedback(rows)
    ensures multiset(ModeratedFeedback(rows))[row] == if row.rec.isModerated then multiset(rows)[row] else 0
  {
    FilterIdempotent(rows, Moderated);
    FilterCounts(rows, Moderated, row);
  }
}
