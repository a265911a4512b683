/** The clique laws hold for cosine similarity, which both users of the clique finder pass to it. */
module CosineCliques {
  import Cosine
  import opened CliqueLaws

  lemma CosineIsSymmetric(sqrt: real -> real)
    ensures Symmetric(Cosine.SimilarityBy(sqrt))
  {
    forall x: Cosine.Vec, y: Cosine.Vec
      ensures Cosine.SimilarityBy(sqrt)(x, y) == Cosine.SimilarityBy(sqrt)(y, x)
    {
      Cosine.SimilarityIsSymmetric(sqrt, x, y);
    }
  }
}
