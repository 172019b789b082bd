/**
 * src/string_util.h: the `_s` literal, `split`, and the `Path` cursor that the
 * filesystem uses to walk a FUSE path one component at a time.
 */
module StringUtil {
  import opened Wrappers
  import opened Posix

  /**
   * `operator"" _s`: `std::string(s, n)` keeps exactly the `n` characters of
   * the literal, embedded NULs included.
   */
  function Lit(s: string, n: nat): (r: string)
    requires n <= |s|
    ensures |r| == n
    ensures forall i :: 0 <= i < n ==> r[i] == s[i]
  {
    s[..n]
  }

  /** Unlike the `const char *` constructor, `_s` does not stop at a NUL. */
  lemma LitKeepsNul(s: string, n: nat)
    requires n <= |s| && '\0' in s[..n]
    ensures |CStr(Lit(s, n))| < |Lit(s, n)| == n
  {
  }

  // ---------------------------------------------------------------------
  // split

  /**
   * The pieces of `s` between delimiters, empty ones included: the
   * reference meaning of "split at every `d`".
   */
  function Pieces(s: string, d: char): (r: seq<string>)
    ensures |r| >= 1
    decreases |s|
  {
    if s == [] then [""] else Prepend(s[0], Pieces(s[1..], d), d)
  }

  /** One more character in front of pieces: a delimiter opens a new empty piece, anything else extends the first. */
  function Prepend(c: char, rest: seq<string>, d: char): (r: seq<string>)
    requires |rest| >= 1
    ensures |r| >= 1
  {
    if c == d then [""] + rest else [[c] + rest[0]] + rest[1..]
  }

  /** Glue pieces back together with the delimiter. */
  function Join(ps: seq<string>, d: char): string
    requires |ps| >= 1
  {
    if |ps| == 1 then ps[0] else ps[0] + [d] + Join(ps[1..], d)
  }

  /** Drop the empty pieces, keeping the order of the others. */
  function NonEmpty(ps: seq<string>): (r: seq<string>)
    ensures |r| <= |ps|
    ensures forall t :: t in r ==> t in ps && t != ""
  {
    if ps == [] then []
    else if ps[0] == "" then NonEmpty(ps[1..])
    else [ps[0]] + NonEmpty(ps[1..])
  }

  /** What `split(s, d)` returns: the non-empty pieces, in order. */
  function Tokens(s: string, d: char): seq<string> {
    NonEmpty(Pieces(s, d))
  }

  /** Joining the pieces with the delimiter gives back the string. */
  lemma {:induction false} JoinPieces(s: string, d: char)
    ensures Join(Pieces(s, d), d) == s
    decreases |s|
  {
    if s != [] {
      JoinPieces(s[1..], d);
      var rest := Pieces(s[1..], d);
      if s[0] == d {
        assert Pieces(s, d) == [""] + rest;
        assert s == [d] + s[1..];
      } else {
        assert Pieces(s, d) == [[s[0]] + rest[0]] + rest[1..];
        if |rest| == 1 {
          assert s == [s[0]] + rest[0];
        } else {
          assert Join(rest, d) == rest[0] + [d] + Join(rest[1..], d);
          assert s == [s[0]] + s[1..];
        }
      }
    }
  }

  /** No piece contains the delimiter. */
  lemma {:induction false} PiecesHaveNoDelim(s: string, d: char)
    ensures forall p :: p in Pieces(s, d) ==> d !in p
    decreases |s|
  {
    if s != [] {
      PiecesHaveNoDelim(s[1..], d);
      var rest := Pieces(s[1..], d);
      if s[0] != d {
        assert d !in rest[0];
        assert d !in [s[0]] + rest[0];
      }
    }
  }

  /** Every token is non-empty and free of the delimiter. */
  lemma TokensWellFormed(s: string, d: char)
    ensures forall t :: t in Tokens(s, d) ==> t != "" && d !in t
  {
    PiecesHaveNoDelim(s, d);
  }

  /** A delimiter-free prefix glues onto the first piece of what follows. */
  lemma {:induction false} PiecesPrefix(item: string, rest: string, d: char)
    requires d !in item
    ensures Pieces(item + rest, d) == [item + Pieces(rest, d)[0]] + Pieces(rest, d)[1..]
    decreases |item|
  {
    if item != [] {
      PiecesPrefix(item[1..], rest, d);
      assert (item + rest)[1..] == item[1..] + rest;
      assert [item[0]] + (item[1..] + Pieces(rest, d)[0]) == item + Pieces(rest, d)[0];
    } else {
      var p := Pieces(rest, d);
      assert item + rest == rest;
      assert item + p[0] == p[0];
      assert [p[0]] + p[1..] == p;
    }
  }

  /** The pieces of `item` followed by one delimiter and `rest`. */
  lemma PiecesAtDelim(item: string, rest: string, d: char)
    requires d !in item
    ensures Pieces(item + [d] + rest, d) == [item] + Pieces(rest, d)
  {
    PiecesPrefix(item, [d] + rest, d);
    assert item + [d] + rest == item + ([d] + rest);
    assert ([d] + rest)[1..] == rest;
    assert Pieces([d] + rest, d) == [""] + Pieces(rest, d);
    assert item + "" == item;
  }

  /** A delimiter-free string is one piece. */
  lemma PiecesOfItem(item: string, d: char)
    requires d !in item
    ensures Pieces(item, d) == [item]
  {
    PiecesPrefix(item, [], d);
    assert item + [] == item;
  }

  /**
   * `split`: reads `s` with `getline(ss, item, delim)` and keeps each
   * non-empty item.
   */
  method Split(s: string, delim: char) returns (tokens: seq<string>)
    ensures tokens == Tokens(s, delim)
  {
    tokens := [];
    var item := "";
    var i := 0;
    assert item + s[i..] == s;
    while i < |s|
      invariant 0 <= i <= |s|
      invariant delim !in item
      invariant tokens + NonEmpty(Pieces(item + s[i..], delim)) == Tokens(s, delim)
    {
      SplitStep(tokens, item, s, i, delim);
      if s[i] == delim {
        if item != "" {
          tokens := tokens + [item];
        }
        item := "";
      } else {
        item := item + [s[i]];
      }
      i := i + 1;
    }
    assert item + s[i..] == item;
    SplitAtEnd(tokens, item, delim);
    if item != "" {
      tokens := tokens + [item];
    }
  }

  /** One character of Split's input keeps its loop invariant, on either branch. */
  lemma SplitStep(tokens: seq<string>, item: string, s: string, i: nat, d: char)
    requires i < |s| && d !in item
    ensures s[i] == d ==>
      (if item != "" then tokens + [item] else tokens) + NonEmpty(Pieces("" + s[i + 1..], d))
        == tokens + NonEmpty(Pieces(item + s[i..], d))
    ensures s[i] != d ==> d !in item + [s[i]]
    ensures s[i] != d ==>
      tokens + NonEmpty(Pieces((item + [s[i]]) + s[i + 1..], d)) == tokens + NonEmpty(Pieces(item + s[i..], d))
  {
    assert s[i..] == [s[i]] + s[i + 1..];
    if s[i] == d {
      SplitAtDelim(tokens, item, s[i + 1..], d);
    } else {
      assert (item + [s[i]]) + s[i + 1..] == item + s[i..];
    }
  }

  /** At a delimiter, Split's pending item becomes a token unless it is empty. */
  lemma SplitAtDelim(tokens: seq<string>, item: string, rest: string, d: char)
    requires d !in item
    ensures tokens + NonEmpty(Pieces(item + ([d] + rest), d))
         == (if item != "" then tokens + [item] else tokens) + NonEmpty(Pieces("" + rest, d))
  {
    assert item + ([d] + rest) == item + [d] + rest;
    PiecesAtDelim(item, rest, d);
    assert "" + rest == rest;
    var p := Pieces(rest, d);
    assert ([item] + p)[0] == item && ([item] + p)[1..] == p;
  }

  /** At the end of the input, the pending item is the last token unless it is empty. */
  lemma SplitAtEnd(tokens: seq<string>, item: string, d: char)
    requires d !in item
    ensures tokens + NonEmpty(Pieces(item, d)) == if item != "" then tokens + [item] else tokens
  {
    PiecesOfItem(item, d);
    assert NonEmpty([item]) == (if item != "" then [item] else []) + NonEmpty([]);
  }

  // ---------------------------------------------------------------------
  // strtok_r with the single delimiter d

  /** `s += strspn(s, delim)`. */
  function SkipDelims(s: string, d: char): (r: string)
    ensures |r| <= |s| && r == s[|s| - |r|..]
    ensures r == [] || r[0] != d
  {
    if s != [] && s[0] == d then SkipDelims(s[1..], d) else s
  }

  /** The token starting at `s`: everything up to the next delimiter. */
  function TakeToken(s: string, d: char): (r: string)
    ensures |r| <= |s| && r == s[..|r|]
    ensures d !in r
    ensures |r| < |s| ==> s[|r|] == d
  {
    if s == [] || s[0] == d then [] else [s[0]] + TakeToken(s[1..], d)
  }

  /**
   * One `strtok_r` call: the token found (None for a null return) and what
   * is left for the next call in the save pointer.
   */
  function Strtok(s: string, d: char): (Option<string>, string) {
    var start := SkipDelims(s, d);
    if start == [] then (None, [])
    else
      var t := TakeToken(start, d);
      var after := start[|t|..];
      (Some(t), if after == [] then [] else after[1..])
  }

  lemma {:induction false} TokensSkipDelims(s: string, d: char)
    ensures Tokens(SkipDelims(s, d), d) == Tokens(s, d)
    decreases |s|
  {
    if s != [] && s[0] == d {
      TokensSkipDelims(s[1..], d);
      assert Pieces(s, d) == [""] + Pieces(s[1..], d);
    }
  }

  /**
   * What successive `strtok_r` calls return is exactly `split`: one call
   * yields the first token and leaves the rest, or yields null when there
   * is none.
   */
  lemma StrtokTokens(s: string, d: char)
    ensures Strtok(s, d).0.None? ==> Tokens(s, d) == [] && Strtok(s, d).1 == []
    ensures Strtok(s, d).0.Some? ==>
      Tokens(s, d) == [Strtok(s, d).0.value] + Tokens(Strtok(s, d).1, d)
  {
    TokensSkipDelims(s, d);
    var start := SkipDelims(s, d);
    if start != [] {
      TokenFound(start, d);
    }
  }

  /** At a token's first character, the tokens are that token followed by those after its delimiter. */
  lemma TokenFound(start: string, d: char)
    requires start != [] && start[0] != d
    ensures var t := TakeToken(start, d);
      var after := start[|t|..];
      Tokens(start, d) == [t] + Tokens(if after == [] then [] else after[1..], d)
  {
    var t := TakeToken(start, d);
    var after := start[|t|..];
    assert t != [];
    if after == [] {
      assert start == t;
      PiecesOfItem(t, d);
      assert NonEmpty([t]) == [t] + NonEmpty([]);
    } else {
      var tail := after[1..];
      assert start == t + [d] + tail;
      PiecesAtDelim(t, tail, d);
      var p := Pieces(tail, d);
      assert ([t] + p)[0] == t && ([t] + p)[1..] == p;
    }
  }

  // ---------------------------------------------------------------------
  // Path

  /**
   * `Path`: a cursor over the non-empty '/'-separated components of a
   * path. `cur` is the component last consumed ("." before the first
   * consume, None once the components are exhausted), `next` the one a
   * consume would take next.
   */
  /** The components a cursor holding `next` and save pointer `save` has yet to produce. */
  ghost function Upcoming(next: Option<string>, save: string): seq<string> {
    (if next.Some? then [next.value] else []) + Tokens(save, '/')
  }

  /** One `consume` on a cursor `c` components into `toks` moves it one component on. */
  lemma ConsumeStep(toks: seq<string>, c: nat, next: Option<string>, save: string, t: Option<string>, rest: string)
    requires Upcoming(next, save) == toks[Min(c, |toks|)..] && (next.None? ==> save == [])
    requires (t, rest) == Strtok(save, '/')
    ensures Upcoming(t, rest) == toks[Min(c + 1, |toks|)..]
    ensures t.None? ==> rest == []
    ensures next == (if c + 1 <= |toks| then Some(toks[c]) else None)
    ensures Upcoming(t, rest) == if next.Some? then Upcoming(next, save)[1..] else []
  {
    StrtokTokens(save, '/');
    if next.None? {
      assert Tokens([], '/') == [];
    }
  }

  class PathCursor {
    const full: CString
    var cur: Option<string>
    var next: Option<string>
    var save: string
    /** Number of consume() calls so far. */
    ghost var consumed: nat

    /** The components `next` and later calls will produce, in order. */
    ghost function Remaining(): seq<string>
      reads this
    {
      Upcoming(next, save)
    }

    ghost predicate Valid()
      reads this
    {
      var toks := Tokens(full, '/');
      && Remaining() == toks[Min(consumed, |toks|)..]
      && (next.None? ==> save == [])
      && cur == (if consumed == 0 then Some(".")
                 else if consumed <= |toks| then Some(toks[consumed - 1])
                 else None)
    }

    constructor (path: CString)
      ensures Valid() && full == path && consumed == 0
      ensures cur == Some(".")
      ensures Remaining() == Tokens(path, '/')
    {
      full := path;
      cur := Some(".");
      var (t, rest) := Strtok(path, '/');
      next, save := t, rest;
      consumed := 0;
      StrtokTokens(path, '/');
    }

    /** `consume`: `next` moves into `cur`, and `next` advances. */
    method Consume()
      requires Valid()
      modifies this
      ensures Valid() && consumed == old(consumed) + 1
      ensures cur == old(next)
      ensures Remaining() == if old(next).Some? then old(Remaining())[1..] else []
    {
      var (t, rest) := Strtok(save, '/');
      ConsumeStep(Tokens(full, '/'), consumed, next, save, t, rest);
      cur := next;
      next, save := t, rest;
      consumed := consumed + 1;
    }
  }

  /** Dropping the first component and then j more drops j + 1. */
  lemma DropAfterHead(s: seq<string>, j: nat)
    requires 0 < |s| && j <= |s| - 1
    ensures s[1..][j..] == s[j + 1..]
  {
  }

  /** A fresh cursor's `next` is the first component, or null for a path with none. */
  lemma FirstComponent(path: CString)
    ensures Tokens(path, '/') == [] <==> Strtok(path, '/').0.None?
    ensures Tokens(path, '/') != [] ==> Strtok(path, '/').0 == Some(Tokens(path, '/')[0])
  {
    StrtokTokens(path, '/');
  }

  /** Repeated, leading and trailing slashes produce no components. */
  lemma SlashesProduceNothing(a: string, b: string)
    ensures Tokens(a + "/" + b, '/') == Tokens(a + "//" + b, '/')
    ensures Tokens("/" + a, '/') == Tokens(a, '/')
    ensures Tokens(a + "/", '/') == Tokens(a, '/')
  {
    TokensAppendDelim(a, b);
    TokensAppendDelim(a, "/" + b);
    assert a + "//" + b == a + "/" + ("/" + b);
    assert Pieces("/" + b, '/') == [""] + Pieces(b, '/');
    assert Pieces("/" + a, '/') == [""] + Pieces(a, '/');
    TokensAppendDelim(a, "");
    assert a + "/" + "" == a + "/";
    assert Pieces("", '/') == [""];
  }

  /** Tokens of `a + "/" + b` in terms of the pieces of both halves. */
  lemma TokensAppendDelim(a: string, b: string)
    ensures Tokens(a + "/" + b, '/') == Tokens(a, '/') + Tokens(b, '/')
  {
    PiecesAppend(a, b, '/');
    NonEmptyAppend(Pieces(a, '/'), Pieces(b, '/'));
  }

  lemma {:induction false} PiecesAppend(a: string, b: string, d: char)
    ensures Pieces(a + [d] + b, d) == Pieces(a, d) + Pieces(b, d)
    decreases |a|
  {
    if a == [] {
      assert a + [d] + b == [d] + b;
      assert ([d] + b)[1..] == b;
    } else {
      PiecesAppend(a[1..], b, d);
      assert (a + [d] + b)[0] == a[0];
      assert (a + [d] + b)[1..] == a[1..] + [d] + b;
      PrependAppend(a[0], Pieces(a[1..], d), Pieces(b, d), d);
    }
  }

  /** Prepend touches only the first piece, so it commutes with appending more pieces. */
  lemma PrependAppend(c: char, ra: seq<string>, pb: seq<string>, d: char)
    requires |ra| >= 1
    ensures Prepend(c, ra + pb, d) == Prepend(c, ra, d) + pb
  {
    assert (ra + pb)[0] == ra[0];
    assert (ra + pb)[1..] == ra[1..] + pb;
  }

  lemma {:induction false} NonEmptyAppend(xs: seq<string>, ys: seq<string>)
    ensures NonEmpty(xs + ys) == NonEmpty(xs) + NonEmpty(ys)
    decreases |xs|
  {
    if xs != [] {
      NonEmptyAppend(xs[1..], ys);
      assert (xs + ys)[1..] == xs[1..] + ys;
    } else {
      assert xs + ys == ys;
    }
  }
}
