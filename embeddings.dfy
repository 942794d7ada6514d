/**
 * The text a note is embedded from: its front matter removed, its fields labelled and
 * its content truncated; and the batches the embedding job works through.
 */
module Embeddings {
  import opened Wrappers
  import opened Text
  import opened FrontMatter

  /** The most characters of content a note contributes. */
  const ContentMaxChars: nat := 8000
  /** The batch size used when none is given. */
  const DefaultBatchSize: nat := 32

  /**
   * `strip_frontmatter`: the text after the leading metadata block, found with the same
   * prefix as `parse_frontmatter`; the whole text when there is none.
   */
  function StripFrontmatter(content: string): (r: string)
    ensures |r| <= |content| && r == content[|content| - |r|..]
  {
    if content == [] then ""
    else match MatchHeader(content)
      case None => content
      case Some(h) => content[h.end..]
  }

  /**
   * Stripping removes exactly the block the regex engine matches: a text with no block
   * comes back whole, and otherwise the text is that block followed by the result.
   */
  lemma StripFrontmatterRemovesBlock(content: string)
    ensures (forall h :: !IsHeader(content, h)) ==> StripFrontmatter(content) == content
    ensures (exists h :: IsHeader(content, h)) ==>
      exists h :: Preferred(content, h) && content == content[..h.end] + StripFrontmatter(content)
  {
    MatchHeaderIsPreferred(content);
    var m := MatchHeader(content);
    if m.Some? {
      assert content != [];
      assert content == content[..m.value.end] + content[m.value.end..];
    }
  }

  /**
   * Whenever `parse_frontmatter` removes a block, `strip_frontmatter` leaves the same body;
   * they differ only when the block is not valid YAML (the parser then keeps the text).
   */
  lemma StripAgreesWithParse(content: string, load: string -> Option<Value>)
    ensures ParseFrontmatter(content, load).1 != content ==>
      StripFrontmatter(content) == ParseFrontmatter(content, load).1
    ensures ParseFrontmatter(content, load).1 == content && MatchHeader(content).Some? ==>
      var h := MatchHeader(content).value;
      load(content[h.groupStart..h.groupEnd]).None?
  {
  }

  /** The `tags` column: absent, a list, or some other value (inserted as it is). */
  datatype TagsField = NoTags | TagList(tags: seq<string>) | TagText(text: string)

  predicate TagsPresent(t: TagsField) {
    match t
    case NoTags => false
    case TagList(ts) => ts != []
    case TagText(s) => s != []
  }

  /** `", ".join(tags)` for a list, the value itself otherwise. */
  function TagsText(t: TagsField): string {
    match t
    case NoTags => ""
    case TagList(ts) => Join(ts, ", ")
    case TagText(s) => s
  }

  /** The columns a note is embedded from; an absent text column is empty. */
  datatype EmbedDoc = EmbedDoc(title: string, description: string, tags: TagsField, category: string, content: string)

  /** The content part: the content without its front matter, cut to 8000 characters. */
  function ContentPart(doc: EmbedDoc): (c: string)
    ensures |c| <= ContentMaxChars
    ensures |c| <= |StripFrontmatter(doc.content)| && c == StripFrontmatter(doc.content)[..|c|]
    ensures c == [] <==> StripFrontmatter(doc.content) == []
    ensures |StripFrontmatter(doc.content)| <= ContentMaxChars ==> c == StripFrontmatter(doc.content)
  {
    var body := StripFrontmatter(doc.content);
    if |body| <= ContentMaxChars then body else body[..ContentMaxChars]
  }

  /**
   * The parts, in the order title, description, tags, category, content, each present only
   * when its column is non-empty.
   */
  function Parts(doc: EmbedDoc): (ps: seq<string>)
    ensures forall k :: 0 <= k < |ps| ==> ps[k] != []
  {
    (if doc.title != [] then ["Title: " + doc.title] else [])
    + (if doc.description != [] then ["Description: " + doc.description] else [])
    + (if TagsPresent(doc.tags) then ["Tags: " + TagsText(doc.tags)] else [])
    + (if doc.category != [] then ["Category: " + doc.category] else [])
    + (if ContentPart(doc) != [] then [ContentPart(doc)] else [])
  }

  /** A note with no labelled column. */
  predicate Unlabelled(doc: EmbedDoc) {
    doc.title == [] && doc.description == [] && !TagsPresent(doc.tags) && doc.category == []
  }

  /**
   * `prepare_text_for_embedding`: the parts joined by blank lines. It is empty exactly
   * when every column is empty (content reduced to its front matter counts as empty),
   * it opens with the title line when there is a title, ends with the truncated content
   * when there is some, and is just that content for a note with no other column.
   */
  function PrepareText(doc: EmbedDoc): (r: string)
    ensures r == [] <==> Unlabelled(doc) && StripFrontmatter(doc.content) == []
    ensures doc.title != [] ==> "Title: " + doc.title <= r
    ensures ContentPart(doc) != [] ==> |ContentPart(doc)| <= |r| && r[|r| - |ContentPart(doc)|..] == ContentPart(doc)
    ensures Unlabelled(doc) ==> r == ContentPart(doc)
  {
    var ps := Parts(doc);
    JoinEmpty(ps, "\n\n");
    JoinEnds(ps, "\n\n");
    Join(ps, "\n\n")
  }

  // ---------------------------------------------------------------------------------
  // Batching

  /** The batches put back together. */
  function Flatten(batches: seq<seq<int>>): seq<int> {
    if batches == [] then [] else batches[0] + Flatten(batches[1..])
  }

  lemma {:induction false} FlattenAppend(batches: seq<seq<int>>, b: seq<int>)
    ensures Flatten(batches + [b]) == Flatten(batches) + b
  {
    if batches != [] {
      assert (batches + [b])[1..] == batches[1..] + [b];
      FlattenAppend(batches[1..], b);
    }
  }

  /** The documents found for the batches, with `found` the lookup of one batch. */
  function FoundTotal(batches: seq<seq<int>>, found: seq<int> -> nat): nat {
    if batches == [] then 0 else found(batches[0]) + FoundTotal(batches[1..], found)
  }

  lemma {:induction false} FoundTotalAppend(batches: seq<seq<int>>, b: seq<int>, found: seq<int> -> nat)
    ensures FoundTotal(batches + [b], found) == FoundTotal(batches, found) + found(b)
  {
    if batches != [] {
      assert (batches + [b])[1..] == batches[1..] + [b];
      FoundTotalAppend(batches[1..], b, found);
    }
  }

  /** A lookup that finds no more documents than ids asked for processes at most one per id. */
  lemma {:induction false} FoundTotalAtMost(batches: seq<seq<int>>, found: seq<int> -> nat)
    requires forall b :: found(b) <= |b|
    ensures FoundTotal(batches, found) <= |Flatten(batches)|
  {
    if batches != [] {
      FoundTotalAtMost(batches[1..], found);
    }
  }

  /**
   * The loop of `generate_embeddings_batch`: consecutive slices of at most `batchSize`
   * ids, all full but the last, that together are `ids` in order; the count returned is
   * the number of documents the lookup found for them (nothing for no ids).
   */
  method GenerateEmbeddingsBatch(ids: seq<int>, batchSize: nat, found: seq<int> -> nat)
    returns (processed: nat, batches: seq<seq<int>>)
    requires ids != [] ==> batchSize > 0
    ensures Flatten(batches) == ids
    ensures forall k :: 0 <= k < |batches| ==> 0 < |batches[k]| <= batchSize
    ensures forall k :: 0 <= k < |batches| - 1 ==> |batches[k]| == batchSize
    ensures processed == FoundTotal(batches, found)
    ensures ids == [] ==> processed == 0 && batches == []
  {
    processed, batches := 0, [];
    if ids == [] {
      return;
    }
    var i := 0;
    while i < |ids|
      invariant 0 <= i <= |ids|
      invariant Flatten(batches) == ids[..i]
      invariant forall k :: 0 <= k < |batches| ==> 0 < |batches[k]| <= batchSize
      invariant forall k :: 0 <= k < |batches| - 1 ==> |batches[k]| == batchSize
      invariant i < |ids| && batches != [] ==> |batches[|batches| - 1]| == batchSize
      invariant processed == FoundTotal(batches, found)
    {
      var end := if i + batchSize <= |ids| then i + batchSize else |ids|;
      var batch := ids[i..end];
      FlattenAppend(batches, batch);
      FoundTotalAppend(batches, batch, found);
      assert ids[..end] == ids[..i] + batch;
      batches := batches + [batch];
      processed := processed + found(batch);
      i := end;
    }
    assert ids[..i] == ids;
  }
}
