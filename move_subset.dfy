/**
 * Copying the DICOM files whose Protocol Name contains one of the search terms
 * into an output tree, under the same relative path. Search terms come from
 * -t values, each split on commas that are not escaped by a backslash.
 */
module MoveSubset {
  import opened Text
  import opened Dicom

  // ---------------------------------------------------------------------------
  // parse_terms: an escape-aware comma splitter
  // ---------------------------------------------------------------------------

  /**
   * The splitter's state: the pieces closed by an unescaped comma so far, the
   * piece being read, and whether a backslash is pending.
   */
  datatype Scanner = Scanner(pieces: seq<string>, current: string, escape: bool)

  const Start := Scanner([], "", false)

  /** The splitter's reaction to one character. */
  function Step(st: Scanner, ch: char): Scanner
  {
    if st.escape then Scanner(st.pieces, st.current + [ch], false)
    else if ch == '\\' then Scanner(st.pieces, st.current, true)
    else if ch == ',' then Scanner(st.pieces + [st.current], "", false)
    else Scanner(st.pieces, st.current + [ch], false)
  }

  /** The state after reading `s` from state `st`. */
  function Feed(st: Scanner, s: string): Scanner
  {
    if s == [] then st else Step(Feed(st, s[..|s| - 1]), s[|s| - 1])
  }

  /** Close a piece: keep it stripped when it is not blank. */
  function Keep(out: seq<string>, piece: string): seq<string>
  {
    var t := Strip(piece);
    if t != "" then out + [t] else out
  }

  /** The terms kept from closed pieces, in order. */
  function KeepAll(pieces: seq<string>): seq<string>
  {
    if pieces == [] then [] else Keep(KeepAll(pieces[..|pieces| - 1]), pieces[|pieces| - 1])
  }

  /** The terms parse_terms returns for one -t value: its pieces and the final one, each kept. */
  function Terms(raw: string): seq<string>
  {
    var st := Feed(Start, raw);
    KeepAll(st.pieces + [st.current])
  }

  lemma {:induction false} FeedConcat(st: Scanner, a: string, b: string)
    ensures Feed(st, a + b) == Feed(Feed(st, a), b)
    decreases |b|
  {
    if b == [] {
      assert a + b == a;
    } else {
      assert (a + b)[..|a + b| - 1] == a + b[..|b| - 1];
      FeedConcat(st, a, b[..|b| - 1]);
    }
  }

  predicate CleanTerms(terms: seq<string>)
  {
    forall i :: 0 <= i < |terms| ==> terms[i] != "" && Strip(terms[i]) == terms[i]
  }

  lemma KeepClean(out: seq<string>, piece: string)
    requires CleanTerms(out)
    ensures CleanTerms(Keep(out, piece))
  {
    StripIdempotent(piece);
  }

  lemma {:induction false} KeepAllClean(pieces: seq<string>)
    ensures CleanTerms(KeepAll(pieces))
    decreases |pieces|
  {
    if pieces != [] {
      KeepAllClean(pieces[..|pieces| - 1]);
      KeepClean(KeepAll(pieces[..|pieces| - 1]), pieces[|pieces| - 1]);
    }
  }

  /** Clean terms are kept as they are. */
  lemma {:induction false} KeepAllOfClean(terms: seq<string>)
    requires CleanTerms(terms)
    ensures KeepAll(terms) == terms
    decreases |terms|
  {
    if terms != [] {
      var init := terms[..|terms| - 1];
      assert CleanTerms(init) by {
        forall i | 0 <= i < |init| ensures init[i] != "" && Strip(init[i]) == init[i] {
          assert init[i] == terms[i];
        }
      }
      var x := terms[|terms| - 1];
      assert x != "" && Strip(x) == x;
      KeepAllOfClean(init);
      assert KeepAll(terms) == Keep(init, x) == init + [x];
      Text.InitLast(terms);
    }
  }

  /** Every term is whitespace-trimmed and non-empty. */
  lemma TermsClean(raw: string)
    ensures CleanTerms(Terms(raw))
  {
    var st := Feed(Start, raw);
    KeepAllClean(st.pieces + [st.current]);
  }

  /** Characters other than ',' and '\' are copied into the current piece. */
  lemma {:induction false} FeedPlain(st: Scanner, s: string)
    requires !st.escape && ',' !in s && '\\' !in s
    ensures Feed(st, s) == Scanner(st.pieces, st.current + s, false)
    decreases |s|
  {
    if s == [] {
      assert st.current + s == st.current;
    } else {
      var init := s[..|s| - 1];
      assert s[|s| - 1] in s;
      assert forall c :: c in init ==> c in s;
      FeedPlain(st, init);
      assert st.current + init + [s[|s| - 1]] == st.current + s;
    }
  }

  /** A value without commas or backslashes is one term, trimmed, or none when blank. */
  lemma PlainTerms(raw: string)
    requires ',' !in raw && '\\' !in raw
    ensures Terms(raw) == (if Strip(raw) == "" then [] else [Strip(raw)])
  {
    FeedPlain(Start, raw);
    assert "" + raw == raw;
    assert [] + [raw] == [raw];
    assert [raw][..0] == [];
    assert KeepAll([raw]) == Keep([], raw);
  }

  /** One character as the escaped text carries it: ',' and '\' get a backslash in front. */
  function EscapeChar(c: char): string
  {
    if c == ',' || c == '\\' then ['\\', c] else [c]
  }

  /** `t` with a backslash before every ',' and '\'. */
  function Escape(t: string): string
  {
    if t == [] then "" else Escape(t[..|t| - 1]) + EscapeChar(t[|t| - 1])
  }

  /** The terms escaped and joined with commas: a -t value that names exactly them. */
  function Encode(terms: seq<string>): string
  {
    if terms == [] then ""
    else if |terms| == 1 then Escape(terms[0])
    else Encode(terms[..|terms| - 1]) + ("," + Escape(terms[|terms| - 1]))
  }

  /** An escaped character is read back literally into the current piece. */
  lemma FeedEscapeChar(st: Scanner, c: char)
    requires !st.escape
    ensures Feed(st, EscapeChar(c)) == Scanner(st.pieces, st.current + [c], false)
  {
    var e := EscapeChar(c);
    if c == ',' || c == '\\' {
      assert e[..1] == ['\\'] && e[..1][..0] == [];
      assert Feed(st, e[..1]) == Step(st, '\\');
    } else {
      assert e[..0] == [];
    }
  }

  /** One more escaped character read after an escaped text. */
  lemma FeedEscapedSnoc(st: Scanner, init: string, c: char)
    requires !st.escape
    requires Feed(st, Escape(init)) == Scanner(st.pieces, st.current + init, false)
    ensures Feed(st, Escape(init + [c])) == Scanner(st.pieces, st.current + (init + [c]), false)
  {
    SnocInit(init, c);
    FeedConcat(st, Escape(init), EscapeChar(c));
    FeedEscapeChar(Scanner(st.pieces, st.current + init, false), c);
    AppendAssoc(st.current, init, [c]);
  }

  /** An escaped text is read back literally into the current piece. */
  lemma {:induction false} FeedEscaped(st: Scanner, t: string)
    requires !st.escape
    ensures Feed(st, Escape(t)) == Scanner(st.pieces, st.current + t, false)
    decreases |t|
  {
    if t == [] {
      assert st.current + t == st.current;
    } else {
      FeedEscaped(st, t[..|t| - 1]);
      FeedEscapedSnoc(st, t[..|t| - 1], t[|t| - 1]);
      InitLast(t);
    }
  }

  /** A comma closes the piece being read; an escaped text after it is the next piece. */
  lemma FeedCommaEscaped(st: Scanner, t: string)
    requires !st.escape
    ensures Feed(st, "," + Escape(t)) == Scanner(st.pieces + [st.current], t, false)
  {
    FeedConcat(st, ",", Escape(t));
    assert ","[..0] == [];
    assert Feed(st, ",") == Step(st, ',');
    FeedEscaped(Scanner(st.pieces + [st.current], "", false), t);
    assert "" + t == t;
  }

  /** After a prefix read with no backslash pending, a comma and an escaped text close one piece. */
  lemma FeedPrefixComma(prefix: string, last: string)
    requires !Feed(Start, prefix).escape
    ensures Feed(Start, prefix + ("," + Escape(last)))
         == Scanner(Feed(Start, prefix).pieces + [Feed(Start, prefix).current], last, false)
  {
    FeedConcat(Start, prefix, "," + Escape(last));
    FeedCommaEscaped(Feed(Start, prefix), last);
  }

  /** One more term appended to an encoding that reads back as its terms. */
  lemma EncodeSnoc(init: seq<string>, last: string)
    requires init != []
    requires Feed(Start, Encode(init)) == Scanner(init[..|init| - 1], init[|init| - 1], false)
    ensures Feed(Start, Encode(init + [last])) == Scanner(init, last, false)
  {
    SnocInit(init, last);
    FeedPrefixComma(Encode(init), last);
    InitLast(init);
  }

  /**
   * Escaping commas and backslashes and joining with commas is undone by the
   * splitter: the pieces it reads are the terms, commas inside them included.
   */
  lemma {:induction false} EncodePieces(terms: seq<string>)
    requires terms != []
    ensures Feed(Start, Encode(terms)) == Scanner(terms[..|terms| - 1], terms[|terms| - 1], false)
    decreases |terms|
  {
    if |terms| == 1 {
      FeedEscaped(Start, terms[0]);
      EmptyAppend(terms[0]);
    } else {
      EncodePieces(terms[..|terms| - 1]);
      EncodeSnoc(terms[..|terms| - 1], terms[|terms| - 1]);
      InitLast(terms);
    }
  }

  /** Clean terms, escaped and joined with commas, parse back to themselves. */
  lemma TermsRoundTrip(terms: seq<string>)
    requires CleanTerms(terms)
    ensures Terms(Encode(terms)) == terms
  {
    if terms == [] {
      assert Feed(Start, "") == Start;
      assert KeepAll([""]) == [] by {
        assert [""][..0] == [];
      }
    } else {
      EncodePieces(terms);
      InitLast(terms);
      KeepAllOfClean(terms);
    }
  }

  /** parse_terms. */
  method ParseTerms(raw: string) returns (out: seq<string>)
    ensures out == Terms(raw)
  {
    out := [];
    var current := "";
    var escape := false;
    ghost var pieces: seq<string> := [];
    var i := 0;
    while i < |raw|
      invariant 0 <= i <= |raw|
      invariant Scanner(pieces, current, escape) == Feed(Start, raw[..i])
      invariant out == KeepAll(pieces)
    {
      var ch := raw[i];
      if escape {
        current := current + [ch];
        escape := false;
      } else if ch == '\\' {
        escape := true;
      } else if ch == ',' {
        assert (pieces + [current])[..|pieces|] == pieces;
        pieces := pieces + [current];
        var term := Strip(current);
        if term != "" {
          out := out + [term];
        }
        current := "";
      } else {
        current := current + [ch];
      }
      assert raw[..i + 1][..i] == raw[..i];
      i := i + 1;
    }
    assert raw[..|raw|] == raw;
    assert (pieces + [current])[..|pieces|] == pieces;
    var term := Strip(current);
    if term != "" {
      out := out + [term];
    }
  }

  /** The terms of all -t values, in order. */
  function AllTerms(raws: seq<string>): seq<string>
  {
    if raws == [] then [] else AllTerms(raws[..|raws| - 1]) + Terms(raws[|raws| - 1])
  }

  lemma {:induction false} AllTermsClean(raws: seq<string>)
    ensures CleanTerms(AllTerms(raws))
  {
    if raws != [] {
      AllTermsClean(raws[..|raws| - 1]);
      TermsClean(raws[|raws| - 1]);
    }
  }

  // ---------------------------------------------------------------------------
  // match_protocol
  // ---------------------------------------------------------------------------

  /** Some term, lower-cased, occurs in the lower-cased protocol name. */
  function AnyTermIn(terms: seq<string>, proto: string): (r: bool)
    ensures r <==> exists i :: 0 <= i < |terms| && IsSubstring(Lower(terms[i]), Lower(proto))
  {
    if terms == [] then false
    else
      var r := IsSubstring(Lower(terms[0]), Lower(proto)) || AnyTermIn(terms[1..], proto);
      assert forall i :: 1 <= i < |terms| ==> terms[i] == terms[1..][i - 1];
      r
  }

  /** match_protocol on a header. */
  function MatchProtocol(ds: Dataset, terms: seq<string>): bool
  {
    ProtocolNameTag in ds && AnyTermIn(terms, ds[ProtocolNameTag])
  }

  /** No Protocol Name, or no terms, never matches. */
  lemma MatchNeedsProtocolAndTerms(ds: Dataset, terms: seq<string>)
    ensures ProtocolNameTag !in ds ==> !MatchProtocol(ds, terms)
    ensures terms == [] ==> !MatchProtocol(ds, terms)
    ensures MatchProtocol(ds, terms) <==> (ProtocolNameTag in ds
      && exists i :: 0 <= i < |terms| && IsSubstring(Lower(terms[i]), Lower(ds[ProtocolNameTag])))
  {
  }

  lemma LowerUpper(s: string)
    ensures Lower(Upper(s)) == Lower(s)
  {
  }

  /** Matching ignores letter case on both sides. */
  lemma MatchIgnoresCase(ds: Dataset, terms: seq<string>)
    requires ProtocolNameTag in ds
    ensures MatchProtocol(ds[ProtocolNameTag := Upper(ds[ProtocolNameTag])], terms) == MatchProtocol(ds, terms)
    ensures MatchProtocol(ds, seq(|terms|, i requires 0 <= i < |terms| => Upper(terms[i]))) == MatchProtocol(ds, terms)
  {
    LowerUpper(ds[ProtocolNameTag]);
    var up := seq(|terms|, i requires 0 <= i < |terms| => Upper(terms[i]));
    forall i | 0 <= i < |terms| ensures Lower(up[i]) == Lower(terms[i]) {
      LowerUpper(terms[i]);
    }
  }

  // ---------------------------------------------------------------------------
  // copy_if_match and the run over a tree
  // ---------------------------------------------------------------------------

  /** The read failures copy_if_match treats as "not a match". */
  predicate Skippable(why: ReadError)
  {
    why == InvalidDicom || why == NotFound || why == PermissionDenied
  }

  /** The file at p is read and its Protocol Name matches. */
  predicate Copies(src: Disk, p: Path, terms: seq<string>)
  {
    Read(src, p).Parsed? && MatchProtocol(Read(src, p).ds, terms)
  }

  /** The output tree after copy_if_match on each path of `paths`. */
  function Output(dst: Disk, src: Disk, paths: seq<Path>, terms: seq<string>): Disk
  {
    if paths == [] then dst
    else
      var before := Output(dst, src, paths[..|paths| - 1], terms);
      var p := paths[|paths| - 1];
      if Copies(src, p, terms) then before[p := src[p]] else before
  }

  /** The number of paths whose file is copied. */
  function CopyCount(src: Disk, paths: seq<Path>, terms: seq<string>): nat
  {
    if paths == [] then 0
    else CopyCount(src, paths[..|paths| - 1], terms) + (if Copies(src, paths[|paths| - 1], terms) then 1 else 0)
  }

  /** The first read failure in `paths` that copy_if_match does not catch. */
  function FirstError(src: Disk, paths: seq<Path>): Option<ReadError>
  {
    if paths == [] then None
    else
      var f := FirstError(src, paths[..|paths| - 1]);
      var r := Read(src, paths[|paths| - 1]);
      if f.Some? then f
      else if r.Failed? && !Skippable(r.why) then Some(r.why)
      else None
  }

  /**
   * The output tree holds every file it held before and a copy of each
   * matching file under its own relative path, and nothing else.
   */
  lemma {:induction false} OutputAt(dst: Disk, src: Disk, paths: seq<Path>, terms: seq<string>, q: Path)
    ensures var out := Output(dst, src, paths, terms);
      var copied := exists i :: 0 <= i < |paths| && paths[i] == q && Copies(src, q, terms);
      (q in out <==> q in dst || copied)
      && (copied ==> out[q] == src[q])
      && (!copied && q in dst ==> out[q] == dst[q])
  {
    if paths != [] {
      var init := paths[..|paths| - 1];
      OutputAt(dst, src, init, terms, q);
      if exists i :: 0 <= i < |paths| && paths[i] == q && Copies(src, q, terms) {
        var i :| 0 <= i < |paths| && paths[i] == q && Copies(src, q, terms);
        if i < |init| {
          assert init[i] == q;
        }
      }
      if exists i :: 0 <= i < |init| && init[i] == q && Copies(src, q, terms) {
        var i :| 0 <= i < |init| && init[i] == q && Copies(src, q, terms);
        assert paths[i] == q;
      }
    }
  }

  lemma {:induction false} CopyCountConcat(src: Disk, a: seq<Path>, b: seq<Path>, terms: seq<string>)
    ensures CopyCount(src, a + b, terms) == CopyCount(src, a, terms) + CopyCount(src, b, terms)
    decreases |b|
  {
    if b == [] {
      assert a + b == a;
    } else {
      assert (a + b)[..|a + b| - 1] == a + b[..|b| - 1];
      CopyCountConcat(src, a, b[..|b| - 1], terms);
    }
  }

  /** The multiset of a sequence split around position j, with and without the element there. */
  lemma MultisetAround<T>(b: seq<T>, j: nat)
    requires j < |b|
    ensures multiset(b) == multiset(b[..j] + b[j + 1..]) + multiset{b[j]}
  {
    assert b == b[..j] + [b[j]] + b[j + 1..];
  }

  /** A common element cancels from both sides of an equation of multisets. */
  lemma MultisetCancel<T>(m: multiset<T>, n: multiset<T>, x: T)
    requires m + multiset{x} == n + multiset{x}
    ensures m == n
  {
    assert m == m + multiset{x} - multiset{x};
    assert n == n + multiset{x} - multiset{x};
  }

  /** The last element of `a` occurs in its permutation `b`, and the rest are permutations too. */
  lemma RemoveLast<T>(a: seq<T>, b: seq<T>) returns (j: nat)
    requires a != [] && multiset(a) == multiset(b)
    ensures j < |b| && b[j] == a[|a| - 1]
    ensures multiset(a[..|a| - 1]) == multiset(b[..j] + b[j + 1..])
  {
    var init, x := a[..|a| - 1], a[|a| - 1];
    InitLast(a);
    MultisetSnoc(init, x);
    assert x in multiset(b);
    j :| 0 <= j < |b| && b[j] == x;
    MultisetAround(b, j);
    MultisetCancel(multiset(init), multiset(b[..j] + b[j + 1..]), x);
  }

  /** The copied count does not depend on the order in which the files complete. */
  lemma {:induction false} CopyCountOrderFree(src: Disk, a: seq<Path>, b: seq<Path>, terms: seq<string>)
    requires multiset(a) == multiset(b)
    ensures CopyCount(src, a, terms) == CopyCount(src, b, terms)
    decreases |a|
  {
    if a == [] {
      assert |b| == |multiset(b)| == 0;
    } else {
      var init, x := a[..|a| - 1], a[|a| - 1];
      var j := RemoveLast(a, b);
      var rest := b[..j] + b[j + 1..];
      CopyCountOrderFree(src, init, rest, terms);
      assert b == b[..j] + [x] + b[j + 1..];
      CopyCountConcat(src, b[..j] + [x], b[j + 1..], terms);
      CopyCountConcat(src, b[..j], [x], terms);
      CopyCountConcat(src, b[..j], b[j + 1..], terms);
      assert CopyCount(src, [x], terms) == (if Copies(src, x, terms) then 1 else 0) by {
        assert [x][..0] == [];
      }
    }
  }

  /** The terms of one more -t value. */
  lemma AllTermsStep(raws: seq<string>, i: nat)
    requires i < |raws|
    ensures AllTerms(raws[..i + 1]) == AllTerms(raws[..i]) + Terms(raws[i])
  {
    assert raws[..i + 1][..i] == raws[..i];
  }

  /** The output tree, the copied count and the first failure after one more file. */
  lemma CopyStep(dst: Disk, src: Disk, paths: seq<Path>, j: nat, terms: seq<string>)
    requires j < |paths|
    ensures var p := paths[j];
      Output(dst, src, paths[..j + 1], terms)
        == (if Copies(src, p, terms) then Output(dst, src, paths[..j], terms)[p := src[p]] else Output(dst, src, paths[..j], terms))
      && CopyCount(src, paths[..j + 1], terms) == CopyCount(src, paths[..j], terms) + (if Copies(src, p, terms) then 1 else 0)
      && FirstError(src, paths[..j + 1])
        == (if FirstError(src, paths[..j]).Some? then FirstError(src, paths[..j])
            else if Read(src, p).Failed? && !Skippable(Read(src, p).why) then Some(Read(src, p).why)
            else None)
  {
    assert paths[..j + 1][..j] == paths[..j];
  }

  /** The output root: the files copied into it so far, by path relative to the root. */
  class OutputTree {
    var files: Disk

    constructor(disk: Disk)
      ensures files == disk
    {
      files := disk;
    }

    /** copy_if_match on the file at p, relative to the source root. */
    method CopyIfMatch(src: Disk, p: Path, terms: seq<string>) returns (r: Result<bool>)
      modifies this
      ensures Read(src, p).Failed? && Skippable(Read(src, p).why) ==> r == Ok(false)
      ensures Read(src, p).Failed? && !Skippable(Read(src, p).why) ==> r == Err(ReadFailed(Read(src, p).why))
      ensures Read(src, p).Parsed? ==> r == Ok(MatchProtocol(Read(src, p).ds, terms))
      ensures files == (if Copies(src, p, terms) then old(files)[p := src[p]] else old(files))
    {
      match Read(src, p) {
        case Failed(why) =>
          if Skippable(why) {
            return Ok(false);
          }
          return Err(ReadFailed(why));
        case Parsed(ds) =>
          if !MatchProtocol(ds, terms) {
            return Ok(false);
          }
          files := files[p := src[p]];
          return Ok(true);
      }
    }

    /**
     * main after argument parsing: gather the terms of every -t value, refuse
     * an empty list, then run copy_if_match on every file. Every file is
     * handled even when one of them fails to read; the failure then ends the
     * run instead of the copied count.
     */
    method Run(src: Disk, paths: seq<Path>, raws: seq<string>) returns (r: Result<nat>)
      modifies this
      ensures AllTerms(raws) == [] ==> r == Err(NoSearchTerms) && files == old(files)
      ensures AllTerms(raws) != [] ==> files == Output(old(files), src, paths, AllTerms(raws))
      ensures AllTerms(raws) != [] && FirstError(src, paths).Some? ==> r == Err(ReadFailed(FirstError(src, paths).value))
      ensures AllTerms(raws) != [] && FirstError(src, paths).None? ==> r == Ok(CopyCount(src, paths, AllTerms(raws)))
    {
      var terms: seq<string> := [];
      var i := 0;
      while i < |raws|
        invariant 0 <= i <= |raws|
        invariant terms == AllTerms(raws[..i])
        invariant files == old(files)
      {
        var more := ParseTerms(raws[i]);
        AllTermsStep(raws, i);
        terms := terms + more;
        i := i + 1;
      }
      assert raws[..|raws|] == raws;
      if terms == [] {
        return Err(NoSearchTerms);
      }
      var copied := 0;
      var failure: Option<ReadError> := None;
      var j := 0;
      while j < |paths|
        invariant 0 <= j <= |paths|
        invariant files == Output(old(files), src, paths[..j], terms)
        invariant copied == CopyCount(src, paths[..j], terms)
        invariant failure == FirstError(src, paths[..j])
      {
        CopyStep(old(files), src, paths, j, terms);
        var done := CopyIfMatch(src, paths[j], terms);
        match done {
          case Ok(hit) =>
            if hit {
              copied := copied + 1;
            }
          case Err(e) =>
            if failure.None? {
              failure := Some(e.why);
            }
        }
        j := j + 1;
      }
      assert paths[..|paths|] == paths;
      if failure.Some? {
        return Err(ReadFailed(failure.value));
      }
      return Ok(copied);
    }
  }
}
