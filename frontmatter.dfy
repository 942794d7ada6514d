/**
 * The leading metadata block of a note: a line `---`, the YAML text, a line `---`.
 *
 * Both `parse_frontmatter` and `strip_frontmatter` recognise it with the prefix
 * `^---\s*\n(.*?)\n---\s*\n` (matched with DOTALL). That prefix is modelled here as the
 * search Python's backtracking engine performs, candidate by candidate in the engine's
 * order, and `MatchHeaderIsPreferred` proves that it finds a match exactly when the
 * input has one, and that it finds the one the engine prefers.
 */
module FrontMatter {
  import opened Text
  import opened Wrappers

  /** A match of the prefix: group 1 is `s[groupStart..groupEnd]`, the match ends at `end`. */
  datatype Header = Header(groupStart: nat, groupEnd: nat, end: nat)

  /** The closing delimiter `\n---\s*\n` sits at `e` and ends at `n`. */
  predicate IsClosing(s: string, e: nat, n: nat) {
    && e + 5 <= n <= |s|
    && s[e..e + 4] == "\n---"
    && AllSpace(s[e + 4..n])
    && s[n - 1] == '\n'
  }

  /** The declarative reading of the prefix: what any match of it looks like. */
  predicate IsHeader(s: string, h: Header) {
    && 4 <= h.groupStart <= h.groupEnd <= |s|
    && |s| >= 3 && s[..3] == "---"
    && AllSpace(s[3..h.groupStart]) && s[h.groupStart - 1] == '\n'
    && IsClosing(s, h.groupEnd, h.end)
  }

  /**
   * The match the engine reports among all of them: the opening `\s*` is greedy (latest
   * opening newline first), the group `.*?` is lazy (earliest closing delimiter first),
   * and the closing `\s*` is greedy (latest closing newline).
   */
  ghost predicate Preferred(s: string, h: Header) {
    && IsHeader(s, h)
    && forall h': Header :: IsHeader(s, h') ==>
         || h'.groupStart < h.groupStart
         || (h'.groupStart == h.groupStart && h.groupEnd < h'.groupEnd)
         || (h'.groupStart == h.groupStart && h.groupEnd == h'.groupEnd && h'.end <= h.end)
  }

  /** The positions of a match lie in order inside the input. */
  predicate InBounds(s: string, h: Header) {
    4 <= h.groupStart <= h.groupEnd && h.groupEnd + 5 <= h.end <= |s|
  }

  /** The end of the run of white space that starts at `i` (how far a greedy `\s*` reaches). */
  function WsEnd(s: string, i: nat): (j: nat)
    requires i <= |s|
    ensures i <= j <= |s| && AllSpace(s[i..j]) && (j == |s| || !IsSpace(s[j]))
    decreases |s| - i
  {
    if i < |s| && IsSpace(s[i]) then WsEnd(s, i + 1) else i
  }

  /** The last `\n` in `s[lo..hi]`: where a greedy `\s*` followed by `\n` settles. */
  function LastNewline(s: string, lo: nat, hi: nat): (r: Option<nat>)
    requires lo <= hi <= |s|
    ensures r.Some? ==> lo <= r.value < hi && s[r.value] == '\n'
                        && forall k :: r.value < k < hi ==> s[k] != '\n'
    ensures r.None? ==> forall k :: lo <= k < hi ==> s[k] != '\n'
    decreases hi - lo
  {
    if hi == lo then None
    else if s[hi - 1] == '\n' then Some(hi - 1)
    else LastNewline(s, lo, hi - 1)
  }

  /** `\n---\s*\n` tried at `e`: where it ends, if it matches there. */
  function CloseAt(s: string, e: nat): (r: Option<nat>)
    requires e <= |s|
    ensures r.Some? ==> e + 5 <= r.value <= |s|
  {
    if e + 4 <= |s| && s[e..e + 4] == "\n---" then
      match LastNewline(s, e + 4, WsEnd(s, e + 4))
      case Some(q) => Some(q + 1)
      case None => None
    else None
  }

  /** The lazy group `(.*?)` opened at `g`, tried with every end from `e` upwards. */
  function LazyGroup(s: string, g: nat, e: nat): (r: Option<Header>)
    requires g <= e <= |s|
    ensures r.Some? ==> r.value.groupStart == g && e <= r.value.groupEnd && r.value.groupEnd + 5 <= r.value.end <= |s|
    decreases |s| - e
  {
    match CloseAt(s, e)
    case Some(n) => Some(Header(g, e, n))
    case None => if e < |s| then LazyGroup(s, g, e + 1) else None
  }

  /** The opening `\s*\n` backtracking from `hi` down: each earlier newline is tried in turn. */
  function OpenFrom(s: string, hi: nat): (r: Option<Header>)
    requires 3 <= hi <= |s|
    ensures r.Some? ==> InBounds(s, r.value)
    decreases hi
  {
    if hi == 3 then None
    else if s[hi - 1] == '\n' then
      match LazyGroup(s, hi, hi)
      case Some(h) => Some(h)
      case None => OpenFrom(s, hi - 1)
    else OpenFrom(s, hi - 1)
  }

  /** `re.match(r'^---\s*\n(.*?)\n---\s*\n', s, re.DOTALL)` */
  function MatchHeader(s: string): (r: Option<Header>)
    ensures r.Some? ==> InBounds(s, r.value)
  {
    if |s| >= 3 && s[..3] == "---" then OpenFrom(s, WsEnd(s, 3)) else None
  }

  /** A run of white space ends no earlier than any all-white-space stretch that starts with it. */
  lemma WsEndCovers(s: string, i: nat, j: nat)
    requires i <= j <= |s| && AllSpace(s[i..j])
    ensures j <= WsEnd(s, i)
  {
  }

  /** A stretch of white space stays white space when cut short. */
  lemma AllSpaceShorter(s: string, i: nat, k: nat, j: nat)
    requires i <= k <= j <= |s| && AllSpace(s[i..j])
    ensures AllSpace(s[i..k])
  {
    forall m | 0 <= m < k - i ensures IsSpace(s[i..k][m]) {
      assert s[i..k][m] == s[i..j][m];
    }
  }

  /** `CloseAt` finds a closing delimiter at `e` exactly when there is one, and the longest. */
  lemma CloseAtSpec(s: string, e: nat)
    requires e <= |s|
    ensures CloseAt(s, e).Some? ==> IsClosing(s, e, CloseAt(s, e).value)
    ensures CloseAt(s, e).Some? ==> forall n: nat :: IsClosing(s, e, n) ==> n <= CloseAt(s, e).value
    ensures CloseAt(s, e).None? ==> forall n: nat :: !IsClosing(s, e, n)
  {
    if e + 4 <= |s| && s[e..e + 4] == "\n---" {
      var w := WsEnd(s, e + 4);
      forall n: nat | IsClosing(s, e, n)
        ensures LastNewline(s, e + 4, w).Some? && n <= LastNewline(s, e + 4, w).value + 1
      {
        WsEndCovers(s, e + 4, n);
        assert e + 4 <= n - 1 < w;
      }
      match LastNewline(s, e + 4, w)
      case Some(q) =>
        AllSpaceShorter(s, e + 4, q + 1, w);
      case None =>
    }
  }

  /** The lazy group settles on the earliest end from `e0` on that has a closing delimiter. */
  lemma {:induction false} LazyGroupSpec(s: string, g: nat, e0: nat)
    requires g <= e0 <= |s|
    ensures LazyGroup(s, g, e0).Some? ==>
      var h := LazyGroup(s, g, e0).value;
      && h.groupStart == g && e0 <= h.groupEnd
      && IsClosing(s, h.groupEnd, h.end)
      && (forall n: nat :: IsClosing(s, h.groupEnd, n) ==> n <= h.end)
      && (forall e: nat, n: nat :: e0 <= e < h.groupEnd ==> !IsClosing(s, e, n))
    ensures LazyGroup(s, g, e0).None? ==> forall e: nat, n: nat :: e0 <= e ==> !IsClosing(s, e, n)
    decreases |s| - e0
  {
    CloseAtSpec(s, e0);
    if CloseAt(s, e0).None? {
      if e0 < |s| {
        LazyGroupSpec(s, g, e0 + 1);
        var r := LazyGroup(s, g, e0);
        assert r == LazyGroup(s, g, e0 + 1);
        forall e: nat, n: nat | e0 <= e && (r.Some? ==> e < r.value.groupEnd)
          ensures !IsClosing(s, e, n)
        {
          if e == e0 {
            assert !IsClosing(s, e0, n);
          }
        }
      } else {
        forall e, n | e0 <= e ensures !IsClosing(s, e, n) {
          if e > e0 { assert !(e + 5 <= |s|); }
        }
      }
    }
  }

  /** No closing delimiter follows an opening that ends at `g`. */
  ghost predicate NoCloseFrom(s: string, g: nat) {
    forall e: nat, n: nat :: g <= e ==> !IsClosing(s, e, n)
  }

  /**
   * What the opening search from `hi` down promises: a match it finds is the preferred
   * one at its opening, and no later opening newline up to `hi` has a closing delimiter
   * after it; when it finds none, no opening newline up to `hi` has one.
   */
  ghost predicate OpenFromOk(s: string, hi: nat)
    requires 3 <= hi <= |s|
  {
    && (OpenFrom(s, hi).Some? ==>
          var h := OpenFrom(s, hi).value;
          && PreferredAtOpening(s, h)
          && h.groupStart <= hi
          && (forall g :: h.groupStart < g <= hi && s[g - 1] == '\n' ==> NoCloseFrom(s, g)))
    && (OpenFrom(s, hi).None? ==> forall g :: 3 < g <= hi && s[g - 1] == '\n' ==> NoCloseFrom(s, g))
  }

  /** The opening settles on the latest newline from which a closing delimiter can be reached. */
  lemma {:induction false} OpenFromSpec(s: string, hi: nat)
    requires 3 <= hi <= |s| && s[..3] == "---" && AllSpace(s[3..hi])
    ensures OpenFromOk(s, hi)
    decreases hi
  {
    if hi > 3 {
      if s[hi - 1] == '\n' && LazyGroup(s, hi, hi).Some? {
        OpenAtNewline(s, hi);
      } else {
        AllSpaceShorter(s, 3, hi - 1, hi);
        OpenFromSpec(s, hi - 1);
        OpenFromStep(s, hi);
      }
    }
  }

  /** A closing delimiter reachable from the newline just before `hi` gives the match. */
  lemma OpenAtNewline(s: string, hi: nat)
    requires 4 <= hi <= |s| && s[..3] == "---" && AllSpace(s[3..hi]) && s[hi - 1] == '\n'
    requires LazyGroup(s, hi, hi).Some?
    ensures OpenFromOk(s, hi)
  {
    LazyGroupSpec(s, hi, hi);
    var h := LazyGroup(s, hi, hi).value;
    assert OpenFrom(s, hi) == Some(h);
    assert IsHeader(s, h);
  }

  /** Passing over `hi` when no closing delimiter is reachable from there. */
  lemma OpenFromStep(s: string, hi: nat)
    requires 4 <= hi <= |s| && OpenFromOk(s, hi - 1)
    requires !(s[hi - 1] == '\n' && LazyGroup(s, hi, hi).Some?)
    ensures OpenFromOk(s, hi)
  {
    if s[hi - 1] == '\n' {
      LazyGroupSpec(s, hi, hi);
    }
    var r := OpenFrom(s, hi);
    assert r == OpenFrom(s, hi - 1);
    forall g | (if r.Some? then r.value.groupStart else 3) < g <= hi && s[g - 1] == '\n'
      ensures NoCloseFrom(s, g)
    {
      if g == hi {
        assert NoCloseFrom(s, hi);
      }
    }
  }

  /** A match found at a fixed opening: sound, with the lazy group and greedy closing preferences. */
  ghost predicate PreferredAtOpening(s: string, h: Header) {
    && IsHeader(s, h)
    && (forall n: nat :: IsClosing(s, h.groupEnd, n) ==> n <= h.end)
    && (forall e: nat, n: nat :: h.groupStart <= e < h.groupEnd ==> !IsClosing(s, e, n))
  }

  /**
   * The search is the regex: it fails exactly when the input has no header block, and
   * otherwise returns the match the engine prefers (and so the only one it can report).
   */
  lemma MatchHeaderIsPreferred(s: string)
    ensures MatchHeader(s).Some? ==> Preferred(s, MatchHeader(s).value)
    ensures MatchHeader(s).None? ==> forall h :: !IsHeader(s, h)
  {
    if |s| >= 3 && s[..3] == "---" {
      var w := WsEnd(s, 3);
      OpenFromSpec(s, w);
      forall h' | IsHeader(s, h')
        ensures h'.groupStart <= w && s[h'.groupStart - 1] == '\n' && !NoCloseFrom(s, h'.groupStart)
      {
        WsEndCovers(s, 3, h'.groupStart);
        assert IsClosing(s, h'.groupEnd, h'.end);
      }
    }
  }

  /**
   * A value `yaml.safe_load` can produce, with what the services ask of it: its Python
   * truthiness and its `str()`. Strings are kept as they are; lists keep their entries.
   */
  datatype Value =
    | Null
    | Str(s: string)
    | Items(items: seq<Value>, text: string)
    | Mapping(fields: map<string, Value>, text: string)
    | Other(truthy: bool, text: string)  // numbers, booleans, dates

  /** `bool(v)` */
  predicate Truthy(v: Value) {
    match v
    case Null => false
    case Str(s) => s != []
    case Items(items, _) => items != []
    case Mapping(fields, _) => fields != map[]
    case Other(truthy, _) => truthy
  }

  /** `str(v)` */
  function Render(v: Value): string {
    match v
    case Null => "None"
    case Str(s) => s
    case Items(_, text) => text
    case Mapping(_, text) => text
    case Other(_, text) => text
  }

  /** `{}` */
  const EmptyMapping := Mapping(map[], "{}")

  /** `d.get(key)` on a loaded mapping. */
  function Get(fields: map<string, Value>, key: string): Value {
    if key in fields then fields[key] else Null
  }

  /**
   * `parse_frontmatter(content)`, with `yaml.safe_load` as the oracle `load` (`None` for a
   * YAMLError). The body is always a suffix of the content: the whole content when there
   * is no block or the block is not valid YAML, else the text after the closing line
   * (`(.*)$` with DOTALL takes everything that follows the prefix).
   */
  function ParseFrontmatter(content: string, load: string -> Option<Value>): (r: (Value, string))
    ensures |r.1| <= |content| && r.1 == content[|content| - |r.1|..]
    ensures r.1 != content ==> MatchHeader(content).Some? && r.1 == content[MatchHeader(content).value.end..]
  {
    match MatchHeader(content)
    case None => (EmptyMapping, content)
    case Some(h) =>
      MatchHeaderIsPreferred(content);
      match load(content[h.groupStart..h.groupEnd])
      case None => (EmptyMapping, content)
      case Some(Null) => (EmptyMapping, content[h.end..])
      case Some(v) => (v, content[h.end..])
  }

  /** Without a leading block, or when the block is not valid YAML, nothing is parsed and nothing removed. */
  lemma ParseWithoutValidBlock(content: string, load: string -> Option<Value>)
    requires MatchHeader(content).None?
          || load(content[MatchHeader(content).value.groupStart..MatchHeader(content).value.groupEnd]).None?
    ensures ParseFrontmatter(content, load) == (EmptyMapping, content)
  {
  }

  /**
   * With a valid block, the metadata is what YAML makes of the text between the delimiter
   * lines (`{}` for an empty document), and the content is exactly that header followed
   * by the body.
   */
  lemma ParseWithValidBlock(content: string, load: string -> Option<Value>)
    requires MatchHeader(content).Some?
    requires load(content[MatchHeader(content).value.groupStart..MatchHeader(content).value.groupEnd]).Some?
    ensures var h := MatchHeader(content).value;
      var v := load(content[h.groupStart..h.groupEnd]).value;
      && Preferred(content, h)
      && ParseFrontmatter(content, load).0 == (if v.Null? then EmptyMapping else v)
      && content == content[..h.end] + ParseFrontmatter(content, load).1
  {
    var h := MatchHeader(content).value;
    MatchHeaderIsPreferred(content);
    assert content == content[..h.end] + content[h.end..];
  }
}
