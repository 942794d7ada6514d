/**
 * What a synced note's front matter turns into: its tag list, its title (from the
 * metadata or, failing that, from the file name), its optional category and
 * description, and the document that is stored for it.
 */
module NoteMetadata {
  import opened Text
  import opened Wrappers
  import opened FrontMatter

  /** `[str(t).strip() for t in items if t]` */
  function TagsOfItems(items: seq<Value>): (r: seq<string>)
    ensures |r| <= |items|
  {
    if items == [] then []
    else if Truthy(items[0]) then [Strip(Render(items[0]))] + TagsOfItems(items[1..])
    else TagsOfItems(items[1..])
  }

  /**
   * `parse_tags`: nothing for a falsy value; a list keeps its truthy entries, each
   * `str()`-ed and stripped; a string is split on commas and only its non-blank pieces
   * are kept, stripped; any other value gives no tags.
   */
  function ParseTags(v: Value): (r: seq<string>)
    ensures !Truthy(v) ==> r == []
    ensures v.Str? ==> CleanEntries(r) && forall k :: 0 <= k < |r| ==> ',' !in r[k]
    ensures !v.Str? && !v.Items? ==> r == []
  {
    if !Truthy(v) then []
    else match v
      case Items(items, _) => TagsOfItems(items)
      case Str(s) => SplitStripped(s, ',')
      case _ => []
  }

  /** Strings as YAML loads them. */
  function Strs(tags: seq<string>): (r: seq<Value>)
    ensures |r| == |tags| && forall k :: 0 <= k < |r| ==> r[k] == Str(tags[k])
  {
    if tags == [] then [] else [Str(tags[0])] + Strs(tags[1..])
  }

  /**
   * Normalised tags come back unchanged, whether they are written as a YAML list or as
   * one comma-separated string (with or without a space after each comma).
   */
  lemma ParseTagsIdempotent(tags: seq<string>, pad: string, text: string)
    requires CleanEntries(tags) && forall k :: 0 <= k < |tags| ==> ',' !in tags[k]
    requires AllSpace(pad) && ',' !in pad
    ensures tags != [] ==> ParseTags(Items(Strs(tags), text)) == tags
    ensures ParseTags(Str(Join(tags, [','] + pad))) == tags
  {
    TagsOfStrs(tags);
    SplitStrippedOfJoin(tags, ',', pad);
  }

  lemma TagsOfStrs(tags: seq<string>)
    requires CleanEntries(tags)
    ensures TagsOfItems(Strs(tags)) == tags
  {
    TagsOfStrsFrom(tags, 0);
  }

  /** From entry `i` on, the strings are read back as tags unchanged. */
  lemma {:induction false} TagsOfStrsFrom(tags: seq<string>, i: nat)
    requires CleanEntries(tags) && i <= |tags|
    ensures TagsOfItems(Strs(tags)[i..]) == tags[i..]
    decreases |tags| - i
  {
    if i < |tags| {
      TagsOfStrsFrom(tags, i + 1);
      var items := Strs(tags)[i..];
      assert items[0] == Str(tags[i]);
      assert items[1..] == Strs(tags)[i + 1..];
      StripStripped(tags[i]);
      assert tags[i..] == [tags[i]] + tags[i + 1..];
    }
  }

  /** A list entry of white space only is kept, as an empty tag: only falsy entries are dropped. */
  lemma BlankListEntryKept(text: string)
    ensures ParseTags(Items([Str(" "), Str("a")], text)) == ["", "a"]
  {
    var items := [Str(" "), Str("a")];
    assert Items(items, text).items == items;
    assert TagsOfItems(items[1..]) == ["a"] by {
      assert items[1..][1..] == [];
      StripStripped("a");
    }
    assert Strip(" ") == [] by {
      assert LStrip(" ") == LStrip("");
    }
  }

  /** `path.split("/")[-1].replace(".md", "")`: the file name without `.md`. */
  function FileStem(path: string): (r: string)
    ensures '/' !in r
  {
    var segments := Split(path, '/');
    var name := segments[|segments| - 1];
    ReplaceKeepsOut(name, ".md", "", '/');
    Replace(name, ".md", "")
  }

  /** The file stem with `-` and `_` turned into spaces. */
  function Spaced(stem: string): string {
    Replace(Replace(stem, "-", " "), "_", " ")
  }

  /** The title made from the file name: `-` and `_` become spaces, then `.title()`. */
  function FallbackTitle(path: string): string {
    Title(Spaced(FileStem(path)))
  }

  lemma SpacedAt(stem: string)
    ensures |Spaced(stem)| == |stem|
    ensures forall i :: 0 <= i < |stem| ==>
      Spaced(stem)[i] == (if stem[i] == '-' || stem[i] == '_' then ' ' else stem[i])
  {
    ReplaceChar(stem, '-', ' ');
    ReplaceChar(Replace(stem, "-", " "), '_', ' ');
  }

  /**
   * The fallback title has one character per character of the file stem, holds no `-`,
   * `_` or `/`, starts each word with a capital letter and puts the rest in lower case;
   * it is empty only when the file name is `.md` (or `.md` repeated).
   */
  lemma FallbackTitleShape(path: string)
    ensures |FallbackTitle(path)| == |FileStem(path)|
    ensures FallbackTitle(path) == [] <==> FileStem(path) == []
    ensures '-' !in FallbackTitle(path) && '_' !in FallbackTitle(path) && '/' !in FallbackTitle(path)
    ensures forall i :: 0 <= i < |FileStem(path)| ==> FallbackTitle(path)[i] == TitleCharAt(FileStem(path), i)
  {
    var stem := FileStem(path);
    var b := Spaced(stem);
    SpacedAt(stem);
    TitleAt(b, false);
    var t := FallbackTitle(path);
    assert t == TitleFrom(b, false);
    forall i | 0 <= i < |t|
      ensures t[i] == TitleCharAt(stem, i)
      ensures t[i] != '-' && t[i] != '_' && t[i] != '/'
    {
      var prev := if i == 0 then false else IsCased(b[i - 1]);
      assert t[i] == (if prev then Lower(b[i]) else Upper(b[i]));
      CaseMapping(b[i]);
      if i > 0 {
        CaseMapping(stem[i - 1]);
        assert prev == IsCased(stem[i - 1]);
      }
      assert stem[i] in stem;
    }
  }

  /**
   * Character `i` of the fallback title: a space for `-` and `_`; a letter that follows a
   * letter is lower-cased, any other is upper-cased.
   */
  function TitleCharAt(stem: string, i: nat): char
    requires i < |stem|
  {
    if stem[i] == '-' || stem[i] == '_' then ' '
    else if i > 0 && IsCased(stem[i - 1]) then Lower(stem[i])
    else Upper(stem[i])
  }

  /** Changing case touches ASCII letters only, and keeps them letters. */
  lemma CaseMapping(c: char)
    ensures !IsCased(c) ==> Upper(c) == c && Lower(c) == c
    ensures IsCased(c) ==> IsCased(Upper(c)) && IsCased(Lower(c))
  {
  }

  /** The title is taken from the metadata unless that is missing or a blank string. */
  predicate UsesFallbackTitle(raw: Value) {
    raw.Null? || (raw.Str? && Strip(raw.s) == [])
  }

  /** The title of a note: `str(title).strip()`, or the one made from its file name. */
  function DeriveTitle(path: string, raw: Value): (r: string)
    ensures UsesFallbackTitle(raw) ==> r == FallbackTitle(path)
    ensures !UsesFallbackTitle(raw) ==> r == Strip(Render(raw))
    ensures !UsesFallbackTitle(raw) ==> IsStripped(r) && (raw.Str? ==> r != [])
  {
    if UsesFallbackTitle(raw) then FallbackTitle(path) else Strip(Render(raw))
  }

  /** `category` and `description`: absent stays absent, otherwise `str(v).strip() or None`. */
  function OptionalText(v: Value): (r: Option<string>)
    ensures r.Some? ==> r.value != [] && IsStripped(r.value)
    ensures r.None? <==> (v.Null? || Strip(Render(v)) == [])
    ensures r.Some? ==> r.value == Strip(Render(v))
  {
    if v.Null? then None
    else
      var t := Strip(Render(v));
      if t == [] then None else Some(t)
  }

  /** The row upserted for a note; the stored content keeps its front matter. */
  datatype Document = Document(
    path: string,
    title: string,
    category: Option<string>,
    description: Option<string>,
    content: string,
    commitSha: Option<string>,
    tags: seq<string>)

  /** Why processing one file gave up, in the order `fetch_and_process_file` checks. */
  datatype FileError =
    | RateLimited
    | FetchFailed(status: int)
    | EmptyContent
    | DecodeFailed
    | NoTitle
    | Unexpected

  /**
   * The document for decoded note text. Metadata that is not a mapping makes `.get`
   * raise, which the outer handler reports as an unexpected error; an empty title is
   * refused before anything is stored.
   */
  function BuildDocument(path: string, content: string, sha: Option<string>, load: string -> Option<Value>)
    : (r: Result<Document, FileError>)
    ensures r.Ok? ==> var d := r.value;
      && d.path == path && d.content == content && d.commitSha == sha
      && d.title != []
      && (d.category.Some? ==> d.category.value != [] && IsStripped(d.category.value))
      && (d.description.Some? ==> d.description.value != [] && IsStripped(d.description.value))
    ensures r.Err? ==> r.error in {NoTitle, Unexpected}
    ensures r.Err? && r.error == Unexpected <==> !ParseFrontmatter(content, load).0.Mapping?
    ensures ParseFrontmatter(content, load).0.Mapping? ==>
      var f := ParseFrontmatter(content, load).0.fields;
      var title := DeriveTitle(path, Get(f, "title"));
      && (r == Err(NoTitle) <==> title == [])
      && (title != [] ==> r == Ok(Document(path, title, OptionalText(Get(f, "category")),
                                             OptionalText(Get(f, "description")), content, sha,
                                             ParseTags(Get(f, "tags")))))
  {
    var (metadata, _) := ParseFrontmatter(content, load);
    if !metadata.Mapping? then Err(Unexpected)
    else
      var f := metadata.fields;
      var title := DeriveTitle(path, Get(f, "title"));
      if title == [] then Err(NoTitle)
      else Ok(Document(path, title, OptionalText(Get(f, "category")), OptionalText(Get(f, "description")),
                       content, sha, ParseTags(Get(f, "tags"))))
  }

  /**
   * A note without front matter gets its title from the file name, no category, no
   * description and no tags, and is refused only when that title is empty.
   */
  lemma DocumentWithoutFrontMatter(path: string, content: string, sha: Option<string>, load: string -> Option<Value>)
    requires MatchHeader(content).None?
    ensures FallbackTitle(path) == [] ==> BuildDocument(path, content, sha, load) == Err(NoTitle)
    ensures FallbackTitle(path) != [] ==>
      BuildDocument(path, content, sha, load) == Ok(Document(path, FallbackTitle(path), None, None, content, sha, []))
  {
    ParseWithoutValidBlock(content, load);
  }
}
