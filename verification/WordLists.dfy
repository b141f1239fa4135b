/**
  The compressor's word lists. A word is looked up in the stop-word set line by line as the source lists it,
  and in the synonym table cluster by cluster; each cluster collapses to one canonical word.
 */
module WordLists {
  type Word = string

  predicate IsStopWord(w: Word) {
    || w in {"a", "an", "the", "is", "are", "was", "were", "be", "been", "being"}
    || w in {"have", "has", "had", "do", "does", "did", "will", "would", "shall"}
    || w in {"should", "may", "might", "must", "can", "could"}
    || w in {"i", "me", "my", "we", "our", "you", "your", "he", "she", "it"}
    || w in {"they", "them", "their", "its", "his", "her"}
    || w in {"this", "that", "these", "those", "which", "who", "whom"}
    || w in {"in", "on", "at", "to", "for", "of", "with", "by", "from"}
    || w in {"up", "about", "into", "through", "during", "before", "after"}
    || w in {"and", "but", "or", "nor", "not", "so", "yet", "both", "either"}
    || w in {"just", "also", "than", "very", "too", "quite", "rather"}
    || w in {"if", "then", "else", "when", "where", "how", "what", "why"}
    || w in {"all", "each", "every", "any", "some", "no", "few", "more"}
    || w in {"here", "there", "now", "already", "still", "again"}
  }

  predicate MeansCreate(w: Word) { w in {"make", "build", "construct", "generate"} }
  predicate MeansDelete(w: Word) { w in {"remove", "destroy", "erase", "purge"} }
  predicate MeansUpdate(w: Word) { w in {"modify", "change", "alter", "edit"} }
  predicate MeansSearch(w: Word) { w in {"find", "look", "seek", "locate"} }
  predicate MeansSend(w: Word) { w in {"transmit", "deliver", "push", "emit"} }
  predicate MeansReceive(w: Word) { w in {"get", "fetch", "pull", "obtain"} }
  predicate MeansStart(w: Word) { w in {"begin", "launch", "initiate", "boot"} }
  predicate MeansStop(w: Word) { w in {"halt", "end", "terminate", "kill"} }
  predicate MeansRun(w: Word) { w in {"execute", "perform", "invoke"} }
  predicate MeansAnalyze(w: Word) { w in {"examine", "inspect", "evaluate", "check"} }
  predicate MeansFast(w: Word) { w in {"quick", "rapid", "speedy", "swift"} }
  predicate MeansBig(w: Word) { w in {"large", "huge", "massive", "enormous"} }
  predicate MeansSmall(w: Word) { w in {"tiny", "little", "mini", "compact"} }
  predicate MeansGood(w: Word) { w in {"great", "excellent", "fine", "nice"} }
  predicate MeansBad(w: Word) { w in {"terrible", "awful", "poor", "broken"} }
  predicate MeansData(w: Word) { w in {"information", "info", "content", "payload"} }
  predicate MeansNode(w: Word) { w in {"server", "host", "machine", "device"} }
  predicate MeansNetwork(w: Word) { w in {"net", "web", "grid", "mesh"} }
  predicate MeansMessage(w: Word) { w in {"msg", "notification", "alert"} }
  predicate MeansRequest(w: Word) { w in {"req", "ask", "prompt"} }
  predicate MeansResponse(w: Word) { w in {"res", "reply", "answer"} }

  /** SYNONYM_MAP.get(w, w). */
  function Canonical(w: Word): Word {
    if MeansCreate(w) then "create"
    else if MeansDelete(w) then "delete"
    else if MeansUpdate(w) then "update"
    else if MeansSearch(w) then "search"
    else if MeansSend(w) then "send"
    else if MeansReceive(w) then "receive"
    else if MeansStart(w) then "start"
    else if MeansStop(w) then "stop"
    else if MeansRun(w) then "run"
    else if MeansAnalyze(w) then "analyze"
    else if MeansFast(w) then "fast"
    else if MeansBig(w) then "big"
    else if MeansSmall(w) then "small"
    else if MeansGood(w) then "good"
    else if MeansBad(w) then "bad"
    else if MeansData(w) then "data"
    else if MeansNode(w) then "node"
    else if MeansNetwork(w) then "network"
    else if MeansMessage(w) then "message"
    else if MeansRequest(w) then "request"
    else if MeansResponse(w) then "response"
    else w
  }

  predicate IsWordChar(c: char) {
    'a' <= c <= 'z' || '0' <= c <= '9'
  }

  predicate IsClean(w: Word) {
    w != "" && forall i :: 0 <= i < |w| ==> IsWordChar(w[i])
  }

  /** A clean word that both lists leave alone. */
  predicate LeftAlone(w: Word) {
    Canonical(w) == w && !IsStopWord(w) && IsClean(w)
  }

  /** The words the first, the middle and the last seven clusters collapse to. */
  const FIRST_WORDS: set<Word> := {"create", "delete", "update", "search", "send", "receive", "start"}
  const MIDDLE_WORDS: set<Word> := {"stop", "run", "analyze", "fast", "big", "small", "good"}
  const LAST_WORDS: set<Word> := {"bad", "data", "node", "network", "message", "request", "response"}

  predicate IsCanonical(w: Word) {
    w in FIRST_WORDS || w in MIDDLE_WORDS || w in LAST_WORDS
  }

  predicate InFirstClusters(w: Word) {
    MeansCreate(w) || MeansDelete(w) || MeansUpdate(w) || MeansSearch(w) || MeansSend(w) || MeansReceive(w) || MeansStart(w)
  }

  predicate InMiddleClusters(w: Word) {
    MeansStop(w) || MeansRun(w) || MeansAnalyze(w) || MeansFast(w) || MeansBig(w) || MeansSmall(w) || MeansGood(w)
  }

  predicate InLastClusters(w: Word) {
    || MeansBad(w) || MeansData(w) || MeansNode(w) || MeansNetwork(w)
    || MeansMessage(w) || MeansRequest(w) || MeansResponse(w)
  }

  predicate IsSynonym(w: Word) {
    InFirstClusters(w) || InMiddleClusters(w) || InLastClusters(w)
  }

  lemma OnlySynonymsChange(w: Word)
    ensures if IsSynonym(w) then IsCanonical(Canonical(w)) else Canonical(w) == w
  {
  }

  lemma CanonicalNotInFirstClusters(w: Word)
    requires IsCanonical(w)
    ensures !InFirstClusters(w)
  {
  }

  lemma CanonicalNotInMiddleClusters(w: Word)
    requires IsCanonical(w)
    ensures !InMiddleClusters(w)
  {
  }

  lemma CanonicalNotInLastClusters(w: Word)
    requires IsCanonical(w)
    ensures !InLastClusters(w)
  {
  }

  lemma CanonicalIsNoStopWord()
    ensures forall w :: w in FIRST_WORDS ==> !IsStopWord(w)
    ensures forall w :: w in MIDDLE_WORDS ==> !IsStopWord(w)
    ensures forall w :: w in LAST_WORDS ==> !IsStopWord(w)
  {
  }

  lemma CanonicalIsClean()
    ensures forall w :: w in FIRST_WORDS ==> IsClean(w)
    ensures forall w :: w in MIDDLE_WORDS ==> IsClean(w)
    ensures forall w :: w in LAST_WORDS ==> IsClean(w)
  {
  }

  /** Canonical words are neither synonyms nor stop words, so looking a word up twice is the same as once. */
  lemma CanonicalIsLeftAlone(w: Word)
    ensures Canonical(w) == w || LeftAlone(Canonical(w))
    ensures Canonical(Canonical(w)) == Canonical(w)
  {
    OnlySynonymsChange(w);
    OnlySynonymsChange(Canonical(w));
    if IsSynonym(w) {
      CanonicalNotInFirstClusters(Canonical(w));
      CanonicalNotInMiddleClusters(Canonical(w));
      CanonicalNotInLastClusters(Canonical(w));
      CanonicalIsNoStopWord();
      CanonicalIsClean();
    }
  }
}
