/** The offline index builder: FAQ entries become the texts sent for embedding,
    and the returned embeddings are zipped back with the entries. The file read,
    the embeddings request and the file write are left to the caller. */
module BuildIndex {
  import opened FaqTypes

  /** The text embedded for one entry: its question and answer on two labelled lines. */
  function EntryText(e: Faq): string {
    "Q: " + e.q + "\nA: " + e.a
  }

  /** One text per entry, in entry order. */
  function Texts(entries: seq<Faq>): (texts: seq<string>)
    ensures |texts| == |entries|
    ensures forall i :: 0 <= i < |entries| ==> texts[i] == EntryText(entries[i])
  {
    if entries == [] then [] else [EntryText(entries[0])] + Texts(entries[1..])
  }

  /** Mapping distributes over concatenation, so texts can be built batch by batch. */
  lemma {:induction false} TextsAppend(xs: seq<Faq>, ys: seq<Faq>)
    ensures Texts(xs + ys) == Texts(xs) + Texts(ys)
  {
    if xs != [] {
      assert (xs + ys)[1..] == xs[1..] + ys;
      TextsAppend(xs[1..], ys);
    }
  }

  /** Position of the first line break at or after `i` in `t`, or `|t|` when none. */
  function FindNewline(t: string, i: nat): (j: nat)
    requires i <= |t|
    ensures i <= j <= |t|
    decreases |t| - i
  {
    if i == |t| then |t| else if t[i] == '\n' then i else FindNewline(t, i + 1)
  }

  lemma {:induction false} FindNewlineAt(t: string, i: nat, j: nat)
    requires i <= j < |t| && t[j] == '\n'
    requires forall k :: i <= k < j ==> t[k] != '\n'
    ensures FindNewline(t, i) == j
    decreases j - i
  {
    if i < j {
      FindNewlineAt(t, i + 1, j);
    }
  }

  /** Reads an entry back from its embedded text: the question runs from the
      "Q: " label to the first line break, which must open the "A: " label. */
  function DecodeEntryText(t: string): Option<Faq> {
    if |t| < 3 || t[..3] != "Q: " then None
    else
      var j := FindNewline(t, 3);
      if j + 4 <= |t| && t[j..j + 4] == "\nA: " then Some(Faq(t[3..j], t[j + 4..])) else None
  }

  /** When the question holds no line break, the text sent for an entry can be read
      back to that entry. */
  lemma EntryTextRoundTrip(e: Faq)
    requires '\n' !in e.q
    ensures DecodeEntryText(EntryText(e)) == Some(e)
  {
    var t := EntryText(e);
    var j := 3 + |e.q|;
    assert t[..3] == "Q: ";
    assert t[3..j] == e.q;
    assert t[j..j + 4] == "\nA: ";
    assert t[j + 4..] == e.a;
    forall k | 3 <= k < j ensures t[k] != '\n' {
      assert t[k] == e.q[k - 3];
    }
    FindNewlineAt(t, 3, j);
  }

  /** Hence, for such entries, distinct entries are embedded from distinct texts. */
  lemma EntryTextInjective(e1: Faq, e2: Faq)
    requires '\n' !in e1.q && '\n' !in e2.q
    requires EntryText(e1) == EntryText(e2)
    ensures e1 == e2
  {
    EntryTextRoundTrip(e1);
    EntryTextRoundTrip(e2);
  }

  /** Items `next`, `next + 1`, ... for the embeddings `embeddings`, taking the
      question and answer of the entry at the same position. */
  function ItemsFrom(entries: seq<Faq>, embeddings: seq<seq<real>>, next: nat): (items: seq<FaqIndexItem>)
    requires next + |embeddings| <= |entries|
    ensures |items| == |embeddings|
    ensures forall i :: 0 <= i < |items| ==>
      items[i] == FaqIndexItem(next + i, entries[next + i].q, entries[next + i].a, embeddings[i])
  {
    if embeddings == [] then []
    else [FaqIndexItem(next, entries[next].q, entries[next].a, embeddings[0])]
         + ItemsFrom(entries, embeddings[1..], next + 1)
  }

  /** One item per returned embedding, with its position as id and the question
      and answer of the entry at that position. When more embeddings come back
      than there are entries, reading an entry past the end throws: `None`. */
  function AssembleIndex(entries: seq<Faq>, embeddings: seq<seq<real>>): (index: Option<seq<FaqIndexItem>>)
    ensures index.None? <==> |embeddings| > |entries|
    ensures index.Some? ==> |index.value| == |embeddings|
    ensures index.Some? ==> forall i :: 0 <= i < |index.value| ==>
      index.value[i].id == i && index.value[i].q == entries[i].q && index.value[i].a == entries[i].a
      && index.value[i].embedding == embeddings[i]
  {
    if |embeddings| > |entries| then None else Some(ItemsFrom(entries, embeddings, 0))
  }

  /** Ids are unique and strictly increasing from 0. */
  lemma AssembledIdsAscending(entries: seq<Faq>, embeddings: seq<seq<real>>, i: nat, j: nat)
    requires AssembleIndex(entries, embeddings).Some?
    requires i < j < |embeddings|
    ensures AssembleIndex(entries, embeddings).value[i].id < AssembleIndex(entries, embeddings).value[j].id
  {
  }

  /** Embedding `i` comes back for text `i`, so each item carries the embedding of
      exactly the text rebuilt from its own question and answer. */
  lemma AssembledItemMatchesText(entries: seq<Faq>, embeddings: seq<seq<real>>, i: nat)
    requires AssembleIndex(entries, embeddings).Some?
    requires i < |embeddings|
    ensures var item := AssembleIndex(entries, embeddings).value[i];
      item.id == i && EntryText(Faq(item.q, item.a)) == Texts(entries)[item.id]
  {
  }
}
