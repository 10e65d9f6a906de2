/** The context block given to the language model: the retrieved entries,
    numbered from 1, each as a heading line and its question and answer lines,
    separated by blank lines. */
module Context {
  import opened FaqTypes
  import opened JsString

  const Separator := "\n\n"

  /** Entry `i` (counted from 0) of the retrieved list, headed by its 1-based rank. */
  function Block(i: nat, t: FaqIndexItem): (b: string)
    ensures |b| > 0 && b[0] == '#'
  {
    "#" + DecimalString(i + 1) + "\nQ: " + t.q + "\nA: " + t.a
  }

  /** One block per retrieved entry, numbered by position. */
  function Blocks(top: seq<FaqIndexItem>): (blocks: seq<string>)
    ensures |blocks| == |top|
    ensures forall i :: 0 <= i < |top| ==> blocks[i] == Block(i, top[i])
  {
    seq(|top|, i requires 0 <= i < |top| => Block(i, top[i]))
  }

  /** The blocks joined with blank lines: empty exactly when nothing was retrieved, and otherwise
      opening with the first entry's heading `#1`. */
  function FormatContext(top: seq<FaqIndexItem>): (context: string)
    ensures context == "" <==> top == []
    ensures top != [] ==> |context| >= 6 && context[..6] == "#1\nQ: "
  {
    var blocks := Blocks(top);
    if top != [] then
      JoinPlacesPart(blocks, Separator, 0);
      assert DecimalString(1) == "1";
      assert blocks[0][..6] == "#1\nQ: ";
      Join(blocks, Separator)
    else Join(blocks, Separator)
  }

  /** Entry `k` appears verbatim, with its rank, at its offset in the context, and a
      blank line follows it unless it is the last. */
  lemma ContextHasBlock(top: seq<FaqIndexItem>, k: nat)
    requires k < |top|
    ensures var o := Offset(Blocks(top), Separator, k);
      var b := "#" + DecimalString(k + 1) + "\nQ: " + top[k].q + "\nA: " + top[k].a;
      o + |b| <= |FormatContext(top)| && FormatContext(top)[o..o + |b|] == b
      && (k + 1 < |top| ==> o + |b| + 2 <= |FormatContext(top)| && FormatContext(top)[o + |b|..o + |b| + 2] == "\n\n")
  {
    var blocks := Blocks(top);
    assert FormatContext(top) == Join(blocks, Separator);
    assert blocks[k] == Block(k, top[k]);
    JoinPlacesPart(blocks, Separator, k);
  }

  /** Retrieving one more entry appends a blank line and that entry's block, ranked last. */
  lemma ContextAppend(top: seq<FaqIndexItem>, t: FaqIndexItem)
    requires top != []
    ensures FormatContext(top + [t]) == FormatContext(top) + "\n\n" + Block(|top|, t)
  {
    assert Blocks(top + [t]) == Blocks(top) + [Block(|top|, t)];
    JoinAppend(Blocks(top), Separator, Block(|top|, t));
  }

  /** A single retrieved entry gives exactly its block, with no separator. */
  lemma ContextSingle(t: FaqIndexItem)
    ensures FormatContext([t]) == "#1\nQ: " + t.q + "\nA: " + t.a
  {
    assert DecimalString(1) == "1";
  }
}
