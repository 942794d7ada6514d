/**
 * The handful of Python `str` operations the services rely on: `isspace` (which is also
 * what the `\s` class of a `re` pattern matches on `str`), `strip`, `split` on one
 * separator character, `join`, `replace`, `title` and slicing.
 */
module Text {

  /** Python's `str.isspace` for one character: the 29 code points Python treats as white space. */
  predicate IsSpace(c: char) {
    || c == ' ' || c == '\t' || c == '\n' || c == '\r' || c == '\U{000B}' || c == '\U{000C}'
    || ('\U{001C}' <= c <= '\U{001F}')
    || c == '\U{0085}' || c == '\U{00A0}' || c == '\U{1680}'
    || ('\U{2000}' <= c <= '\U{200A}')
    || c == '\U{2028}' || c == '\U{2029}' || c == '\U{202F}' || c == '\U{205F}' || c == '\U{3000}'
  }

  predicate AllSpace(s: string) {
    forall i :: 0 <= i < |s| ==> IsSpace(s[i])
  }

  /** `s.lstrip()` */
  function LStrip(s: string): string {
    if s != [] && IsSpace(s[0]) then LStrip(s[1..]) else s
  }

  /** `s.rstrip()` */
  function RStrip(s: string): string {
    if s != [] && IsSpace(s[|s| - 1]) then RStrip(s[..|s| - 1]) else s
  }

  /** `lstrip` removes a run of white space from the front, and all of it. */
  lemma {:induction false} LStripSpec(s: string)
    ensures var r := LStrip(s);
      && |r| <= |s| && r == s[|s| - |r|..]
      && AllSpace(s[..|s| - |r|])
      && (r == [] || !IsSpace(r[0]))
  {
    if s != [] && IsSpace(s[0]) {
      LStripSpec(s[1..]);
      var r := LStrip(s);
      assert s[..|s| - |r|] == [s[0]] + s[1..][..|s| - 1 - |r|];
    }
  }

  /** `rstrip` removes a run of white space from the back, and all of it. */
  lemma {:induction false} RStripSpec(s: string)
    ensures var r := RStrip(s);
      && |r| <= |s| && r == s[..|r|]
      && AllSpace(s[|r|..])
      && (r == [] || !IsSpace(r[|r| - 1]))
  {
    if s != [] && IsSpace(s[|s| - 1]) {
      RStripSpec(s[..|s| - 1]);
      var r := RStrip(s);
      assert s[|r|..] == s[..|s| - 1][|r|..] + [s[|s| - 1]];
    }
  }

  /** No white space at either end. */
  predicate IsStripped(s: string) {
    s == [] || (!IsSpace(s[0]) && !IsSpace(s[|s| - 1]))
  }

  /** Entries as tag and channel lists hold them: non-empty and already stripped. */
  predicate CleanEntries(e: seq<string>) {
    forall k :: 0 <= k < |e| ==> e[k] != [] && IsStripped(e[k])
  }

  /** `s.strip()`: the text between the leading and the trailing white space. */
  function Strip(s: string): (r: string)
    ensures |r| <= |s|
    ensures IsStripped(r)
  {
    LStripSpec(s);
    RStripSpec(LStrip(s));
    RStrip(LStrip(s))
  }

  /** What `strip` removes is white space on both sides, and what it keeps is one infix of `s`. */
  lemma StripInfix(s: string)
    ensures exists i :: (0 <= i <= |s| - |Strip(s)| && Strip(s) == s[i..i + |Strip(s)|]
                         && AllSpace(s[..i]) && AllSpace(s[i + |Strip(s)|..]))
  {
    var l := LStrip(s);
    var r := RStrip(l);
    LStripSpec(s);
    RStripSpec(l);
    var i := |s| - |l|;
    assert r == s[i..i + |r|];
    assert s[i + |r|..] == l[|r|..];
  }

  /** Stripping is idempotent: a stripped string has nothing left to strip. */
  lemma StripStripped(s: string)
    requires IsStripped(s)
    ensures Strip(s) == s
  {
  }

  /** `s.find(c)`, for a character that occurs. */
  function IndexOf(s: string, c: char): (i: nat)
    requires c in s
    ensures i < |s| && s[i] == c && c !in s[..i]
  {
    if s[0] == c then 0 else 1 + IndexOf(s[1..], c)
  }

  /** `sep.join(parts)` */
  function Join(parts: seq<string>, sep: string): string {
    if |parts| == 0 then ""
    else if |parts| == 1 then parts[0]
    else parts[0] + sep + Join(parts[1..], sep)
  }

  /**
   * `s.split(sep)` for a one-character separator: always at least one piece, no piece
   * holds the separator, and joining the pieces with the separator gives `s` back.
   */
  function Split(s: string, sep: char): (r: seq<string>)
    ensures |r| >= 1
    ensures forall k :: 0 <= k < |r| ==> sep !in r[k]
    ensures Join(r, [sep]) == s
    decreases |s|
  {
    if sep !in s then [s]
    else
      var i := IndexOf(s, sep);
      var rest := Split(s[i + 1..], sep);
      assert s == s[..i] + [sep] + s[i + 1..];
      [s[..i]] + rest
  }

  /** The pieces of a split are determined by the two properties `Split` promises. */
  lemma {:induction false} SplitUnique(s: string, sep: char, pieces: seq<string>)
    requires |pieces| >= 1
    requires forall k :: 0 <= k < |pieces| ==> sep !in pieces[k]
    requires Join(pieces, [sep]) == s
    ensures Split(s, sep) == pieces
    decreases |s|
  {
    if |pieces| == 1 {
      assert sep !in s;
    } else {
      var p0 := pieces[0];
      var tail := Join(pieces[1..], [sep]);
      assert s == p0 + [sep] + tail;
      assert s[|p0|] == sep;
      assert s[..|p0|] == p0;
      assert sep in s;
      var i := IndexOf(s, sep);
      assert i == |p0|;
      assert s[i + 1..] == tail;
      SplitUnique(tail, sep, pieces[1..]);
    }
  }

  /** The stripped, non-empty pieces: `[t.strip() for t in pieces if t.strip()]`. */
  function StrippedNonEmpty(pieces: seq<string>): (r: seq<string>)
    ensures |r| <= |pieces|
  {
    if pieces == [] then []
    else
      var t := Strip(pieces[0]);
      var rest := StrippedNonEmpty(pieces[1..]);
      if t != [] then [t] + rest else rest
  }

  /**
   * `[t.strip() for t in s.split(sep) if t.strip()]`: every entry is non-empty, has no
   * surrounding white space and holds no separator.
   */
  function SplitStripped(s: string, sep: char): (r: seq<string>)
    ensures CleanEntries(r)
    ensures forall k :: 0 <= k < |r| ==> sep !in r[k]
  {
    var pieces := Split(s, sep);
    StrippedNoSep(pieces, sep);
    StrippedNonEmptyClean(pieces);
    StrippedNonEmpty(pieces)
  }

  /** Every piece kept is non-empty and stripped. */
  lemma {:induction false} StrippedNonEmptyClean(pieces: seq<string>)
    ensures CleanEntries(StrippedNonEmpty(pieces))
  {
    if pieces != [] {
      StrippedNonEmptyClean(pieces[1..]);
      var t := Strip(pieces[0]);
      var rest := StrippedNonEmpty(pieces[1..]);
      if t != [] {
        forall k | 0 <= k < |[t] + rest| ensures ([t] + rest)[k] != [] && IsStripped(([t] + rest)[k]) {
          if k > 0 {
            assert ([t] + rest)[k] == rest[k - 1];
          }
        }
      }
    }
  }

  lemma {:induction false} StrippedNoSep(pieces: seq<string>, sep: char)
    requires forall k :: 0 <= k < |pieces| ==> sep !in pieces[k]
    ensures forall k :: 0 <= k < |StrippedNonEmpty(pieces)| ==> sep !in StrippedNonEmpty(pieces)[k]
  {
    if pieces != [] {
      StrippedNoSep(pieces[1..], sep);
      StripInfix(pieces[0]);
      assert sep !in pieces[0];
    }
  }

  /** Each entry preceded by `pad`. */
  function PadAll(entries: seq<string>, pad: string): (r: seq<string>)
    ensures |r| == |entries|
    ensures forall k :: 0 <= k < |r| ==> r[k] == pad + entries[k]
  {
    if entries == [] then [] else [pad + entries[0]] + PadAll(entries[1..], pad)
  }

  lemma JoinPrefixFirst(p: string, e: string, rest: seq<string>, sep: string)
    ensures Join([p + e] + rest, sep) == p + Join([e] + rest, sep)
  {
    if rest != [] {
      assert ([p + e] + rest)[1..] == rest;
      assert ([e] + rest)[1..] == rest;
    }
  }

  /** A join starts with its first part and ends with its last one. */
  lemma {:induction false} JoinEnds(parts: seq<string>, sep: string)
    ensures parts != [] ==> var j := Join(parts, sep);
      && |parts[0]| <= |j| && j[..|parts[0]|] == parts[0]
      && |parts[|parts| - 1]| <= |j| && j[|j| - |parts[|parts| - 1]|..] == parts[|parts| - 1]
  {
    if |parts| > 1 {
      JoinEnds(parts[1..], sep);
      var rest := Join(parts[1..], sep);
      assert Join(parts, sep) == parts[0] + sep + rest;
      assert parts[1..][|parts[1..]| - 1] == parts[|parts| - 1];
      assert (parts[0] + sep + rest)[|parts[0] + sep + rest| - |rest|..] == rest;
    }
  }

  /** A join of non-empty parts is empty exactly when there is no part. */
  lemma JoinEmpty(parts: seq<string>, sep: string)
    requires forall k :: 0 <= k < |parts| ==> parts[k] != []
    ensures Join(parts, sep) == [] <==> parts == []
  {
    JoinEnds(parts, sep);
  }

  /** Joining with a padded separator is joining the padded entries with the bare one. */
  lemma {:induction false} JoinPadded(x: string, es: seq<string>, sep: string, pad: string)
    ensures Join([x] + PadAll(es, pad), sep) == Join([x] + es, sep + pad)
    decreases |es|
  {
    if es != [] {
      var tail := PadAll(es[1..], pad);
      assert PadAll(es, pad) == [pad + es[0]] + tail;
      assert ([x] + PadAll(es, pad))[1..] == [pad + es[0]] + tail;
      assert ([x] + es)[1..] == [es[0]] + es[1..];
      JoinPadded(pad + es[0], es[1..], sep, pad);
      JoinPrefixFirst(pad, es[0], es[1..], sep + pad);
    }
  }

  /** Leading white space before a stripped, non-empty string is all `strip` removes. */
  lemma {:induction false} StripPadded(pad: string, e: string)
    requires AllSpace(pad) && e != [] && IsStripped(e)
    ensures Strip(pad + e) == e
    decreases |pad|
  {
    if pad == [] {
      assert pad + e == e;
    } else {
      assert (pad + e)[1..] == pad[1..] + e;
      StripPadded(pad[1..], e);
    }
  }

  lemma {:induction false} StrippedNonEmptyPadded(entries: seq<string>, pad: string)
    requires CleanEntries(entries) && AllSpace(pad)
    ensures StrippedNonEmpty(PadAll(entries, pad)) == entries
  {
    if entries != [] {
      var e0, tail := entries[0], entries[1..];
      assert CleanEntries(tail) by {
        forall k | 0 <= k < |tail| ensures tail[k] != [] && IsStripped(tail[k]) {
          assert tail[k] == entries[k + 1];
        }
      }
      StrippedNonEmptyPadded(tail, pad);
      StripPadded(pad, e0);
      assert PadAll(entries, pad)[1..] == PadAll(tail, pad);
      assert entries == [e0] + tail;
    }
  }

  /**
   * Re-splitting joined entries gives them back: for entries that are already stripped,
   * non-empty and free of the separator, `SplitStripped` undoes a join whose separator is
   * `sep` followed by any white space (`","`, `", "`).
   */
  lemma SplitStrippedOfJoin(entries: seq<string>, sep: char, pad: string)
    requires CleanEntries(entries)
    requires forall k :: 0 <= k < |entries| ==> sep !in entries[k]
    requires AllSpace(pad) && sep !in pad
    ensures SplitStripped(Join(entries, [sep] + pad), sep) == entries
  {
    if entries == [] {
      assert Split("", sep) == [""];
      assert Strip("") == "";
    } else {
      var e0, es := entries[0], entries[1..];
      var pieces := [e0] + PadAll(es, pad);
      assert entries == [e0] + es;
      JoinPadded(e0, es, [sep], pad);
      forall k | 0 <= k < |pieces| ensures sep !in pieces[k] {
        if k > 0 {
          assert pieces[k] == pad + entries[k];
        }
      }
      SplitUnique(Join(entries, [sep] + pad), sep, pieces);
      assert CleanEntries(es) by {
        forall k | 0 <= k < |es| ensures es[k] != [] && IsStripped(es[k]) {
          assert es[k] == entries[k + 1];
        }
      }
      StrippedNonEmptyPadded(es, pad);
      StripStripped(e0);
      assert pieces[1..] == PadAll(es, pad);
    }
  }

  /** `s[:n]` for a non-negative `n`. */
  function Prefix(s: string, n: nat): (r: string)
    ensures |r| <= n && |r| <= |s| && r == s[..|r|]
    ensures |s| <= n ==> r == s
  {
    if |s| <= n then s else s[..n]
  }

  /** `old in s` at position `i`. */
  predicate OccursAt(s: string, pat: string, i: nat) {
    i + |pat| <= |s| && s[i..i + |pat|] == pat
  }

  /**
   * `s.replace(pat, rep)` for a non-empty pattern: every occurrence, scanned left to
   * right without overlap, is replaced.
   */
  function Replace(s: string, pat: string, rep: string): (r: string)
    requires pat != []
    decreases |s|
  {
    if |s| < |pat| then s
    else if s[..|pat|] == pat then rep + Replace(s[|pat|..], pat, rep)
    else [s[0]] + Replace(s[1..], pat, rep)
  }

  /** Replacing one character by another is a character-wise map: same length, no `c` left. */
  lemma {:induction false} ReplaceChar(s: string, c: char, d: char)
    requires c != d
    ensures |Replace(s, [c], [d])| == |s|
    ensures forall i :: 0 <= i < |s| ==> Replace(s, [c], [d])[i] == (if s[i] == c then d else s[i])
    ensures c !in Replace(s, [c], [d])
  {
    if |s| > 0 {
      ReplaceChar(s[1..], c, d);
      assert s[..1] == [s[0]];
      var r := Replace(s, [c], [d]);
      assert r == [if s[0] == c then d else s[0]] + Replace(s[1..], [c], [d]);
      forall i | 0 <= i < |s| ensures r[i] == (if s[i] == c then d else s[i]) {
        if i > 0 { assert r[i] == Replace(s[1..], [c], [d])[i - 1]; }
      }
    }
  }

  /** `replace` introduces no character that neither the text nor the replacement holds. */
  lemma {:induction false} ReplaceKeepsOut(s: string, pat: string, rep: string, c: char)
    requires pat != [] && c !in s && c !in rep
    ensures c !in Replace(s, pat, rep)
    decreases |s|
  {
    if |s| >= |pat| {
      if s[..|pat|] == pat {
        ReplaceKeepsOut(s[|pat|..], pat, rep, c);
      } else {
        ReplaceKeepsOut(s[1..], pat, rep, c);
      }
    }
  }

  predicate IsUpperAscii(c: char) { 'A' <= c <= 'Z' }
  predicate IsLowerAscii(c: char) { 'a' <= c <= 'z' }
  /** Python's "cased" characters, restricted to ASCII letters. */
  predicate IsCased(c: char) { IsUpperAscii(c) || IsLowerAscii(c) }

  function Upper(c: char): char {
    if IsLowerAscii(c) then (c as int - 'a' as int + 'A' as int) as char else c
  }

  function Lower(c: char): char {
    if IsUpperAscii(c) then (c as int - 'A' as int + 'a' as int) as char else c
  }

  /** `s.title()` continuing after a character that was (`prevCased`) or was not cased. */
  function TitleFrom(s: string, prevCased: bool): string
    decreases |s|
  {
    if s == [] then []
    else [if prevCased then Lower(s[0]) else Upper(s[0])] + TitleFrom(s[1..], IsCased(s[0]))
  }

  /** `s.title()` */
  function Title(s: string): string {
    TitleFrom(s, false)
  }

  /**
   * What `title()` does to each character: a letter that follows a cased letter is
   * lower-cased, every other one is upper-cased; the length does not change.
   */
  lemma {:induction false} TitleAt(s: string, prevCased: bool)
    ensures |TitleFrom(s, prevCased)| == |s|
    ensures forall i :: 0 <= i < |s| ==>
      TitleFrom(s, prevCased)[i] ==
        (if (if i == 0 then prevCased else IsCased(s[i - 1])) then Lower(s[i]) else Upper(s[i]))
    decreases |s|
  {
    if s != [] {
      TitleAt(s[1..], IsCased(s[0]));
      var r := TitleFrom(s, prevCased);
      forall i | 0 <= i < |s|
        ensures r[i] == (if (if i == 0 then prevCased else IsCased(s[i - 1])) then Lower(s[i]) else Upper(s[i]))
      {
        if i > 0 {
          assert r[i] == TitleFrom(s[1..], IsCased(s[0]))[i - 1];
        }
      }
    }
  }
}
