/** The words a query leaves out (src/search/terms.ts). */
module StopWords {
  predicate IsStopWord(term: string) {
    term in {
      "a", "an", "and", "are", "as", "at", "be", "but", "by", "for", "from", "in", "into", "is", "it", "of", "on",
      "or", "the", "to", "with", "via", "than", "then", "that", "this", "these", "those", "over", "under", "new",
      "old", "add", "fix", "use", "using", "not", "no", "all", "any", "each", "per"}
  }
}
