/**
 * The file generator: path templating, block-size and file-size
 * configuration, the index counter the duplicates share, and the per-file
 * byte count that decides when a file is rotated.
 *
 * File I/O is recorded as a log of abstract operations (open, write, flush,
 * remove); the throttle and the block cache that feed blocks are outside the
 * model, so a run is driven by the sequence of block sizes it admits.
 */
module FileGen {
  import opened Wrappers
  import opened Strings
  import opened Numerals

  const U32: nat := 0x1_0000_0000
  const U64: nat := 0x1_0000_0000_0000_0000

  /** The placeholder the duplicate's index replaces. */
  const Pattern: string := "%NNN%"

  // ---------------------------------------------------------------- path templates

  /** Whether `pat` occurs anywhere in `s`. */
  predicate Occurs(s: string, pat: string)
  {
    exists i :: 0 <= i <= |s| && HasPrefix(s[i..], pat)
  }

  /** Replaces each occurrence of `pat`, scanning left to right without overlaps. */
  function Replace(s: string, pat: string, rep: string): string
    requires |pat| > 0
    decreases |s|
  {
    if HasPrefix(s, pat) then rep + Replace(s[|pat|..], pat, rep)
    else if |s| == 0 then ""
    else [s[0]] + Replace(s[1..], pat, rep)
  }

  /** A text in which the pattern does not occur comes back unchanged. */
  lemma {:induction false} ReplaceAbsent(s: string, pat: string, rep: string)
    requires |pat| > 0
    requires !Occurs(s, pat)
    ensures Replace(s, pat, rep) == s
    decreases |s|
  {
    assert s[0..] == s;
    if |s| > 0 {
      forall i | 0 <= i <= |s[1..]|
        ensures !HasPrefix(s[1..][i..], pat)
      {
        assert s[1..][i..] == s[i + 1..];
      }
      ReplaceAbsent(s[1..], pat, rep);
    }
  }

  /** Where the pattern does not start, the first character is copied. */
  lemma ReplaceSkip(s: string, pat: string, rep: string)
    requires |pat| > 0 && |s| > 0 && !HasPrefix(s, pat)
    ensures Replace(s, pat, rep) == [s[0]] + Replace(s[1..], pat, rep)
  {
  }

  /** Where the pattern starts, it is replaced and the scan resumes after it. */
  lemma ReplaceHit(pat: string, rep: string, rest: string)
    requires |pat| > 0
    ensures Replace(pat + rest, pat, rep) == rep + Replace(rest, pat, rep)
  {
    assert (pat + rest)[..|pat|] == pat;
    assert (pat + rest)[|pat|..] == rest;
  }

  /**
   * Whether no occurrence of `pat` can start inside `piece` when `pat`
   * follows it: any such occurrence would end within `piece` and all but the
   * last character of `pat`.
   */
  predicate PlainBefore(piece: string, pat: string)
    requires |pat| > 0
  {
    !Occurs(piece + pat[..|pat| - 1], pat)
  }

  /** Dropping the first character keeps a text plain. */
  lemma PlainBeforeTail(piece: string, pat: string)
    requires |pat| > 0 && |piece| > 0 && PlainBefore(piece, pat)
    ensures PlainBefore(piece[1..], pat)
  {
    var q := pat[..|pat| - 1];
    forall i | 0 <= i <= |piece[1..] + q|
      ensures !HasPrefix((piece[1..] + q)[i..], pat)
    {
      assert (piece[1..] + q)[i..] == (piece + q)[i + 1..];
    }
  }

  /** Text before an occurrence, in which no occurrence starts, is copied as it is. */
  lemma {:induction false} ReplaceAfterPlainPrefix(prefix: string, pat: string, rep: string, rest: string)
    requires |pat| > 0
    requires PlainBefore(prefix, pat)
    ensures Replace(prefix + pat + rest, pat, rep) == prefix + rep + Replace(rest, pat, rep)
    decreases |prefix|
  {
    if |prefix| == 0 {
      assert prefix + pat + rest == pat + rest;
      ReplaceHit(pat, rep, rest);
    } else {
      var s := prefix + pat + rest;
      var q := pat[..|pat| - 1];
      assert s[..|pat|] == (prefix + q)[0..][..|pat|];
      assert !HasPrefix((prefix + q)[0..], pat);
      ReplaceSkip(s, pat, rep);
      assert s[1..] == prefix[1..] + pat + rest;
      PlainBeforeTail(prefix, pat);
      ReplaceAfterPlainPrefix(prefix[1..], pat, rep, rest);
      assert [prefix[0]] + prefix[1..] == prefix;
      assert [s[0]] + (prefix[1..] + rep + Replace(rest, pat, rep)) == prefix + rep + Replace(rest, pat, rep);
    }
  }

  /** The pieces with `sep` between each two of them. */
  function JoinWith(pieces: seq<string>, sep: string): string
    requires |pieces| > 0
  {
    if |pieces| == 1 then pieces[0] else pieces[0] + sep + JoinWith(pieces[1..], sep)
  }

  /**
   * A text made of pieces joined by the pattern, where no occurrence starts
   * inside a piece: `replace` puts the replacement at exactly those joins.
   */
  lemma {:induction false} ReplaceJoined(pieces: seq<string>, pat: string, rep: string)
    requires |pat| > 0 && |pieces| > 0
    requires forall k :: 0 <= k < |pieces| - 1 ==> PlainBefore(pieces[k], pat)
    requires !Occurs(pieces[|pieces| - 1], pat)
    ensures Replace(JoinWith(pieces, pat), pat, rep) == JoinWith(pieces, rep)
    decreases |pieces|
  {
    if |pieces| == 1 {
      ReplaceAbsent(pieces[0], pat, rep);
    } else {
      var rest := pieces[1..];
      assert rest[|rest| - 1] == pieces[|pieces| - 1];
      ReplaceJoined(rest, pat, rep);
      ReplaceAfterPlainPrefix(pieces[0], pat, rep, JoinWith(rest, pat));
    }
  }

  /** An occurrence starts at the front or further on. */
  lemma OccursCons(s: string, pat: string)
    requires |s| > 0
    ensures Occurs(s, pat) <==> HasPrefix(s, pat) || Occurs(s[1..], pat)
  {
    if Occurs(s, pat) && !HasPrefix(s, pat) {
      var i :| 0 <= i <= |s| && HasPrefix(s[i..], pat);
      assert i > 0 && s[1..][i - 1..] == s[i..];
    }
    if Occurs(s[1..], pat) {
      var i :| 0 <= i <= |s[1..]| && HasPrefix(s[1..][i..], pat);
      assert s[1..][i..] == s[i + 1..];
      assert HasPrefix(s[i + 1..], pat);
    }
    if HasPrefix(s, pat) {
      assert s[0..] == s;
    }
  }

  /** A text too short to hold the pattern holds no occurrence of it. */
  lemma ShortAbsent(s: string, pat: string)
    requires |s| < |pat|
    ensures !Occurs(s, pat)
  {
  }

  /** A character put in front of a plain text keeps it plain unless the pattern starts right there. */
  lemma PlainBeforeCons(c: char, piece: string, pat: string, rest: string)
    requires |pat| > 0 && PlainBefore(piece, pat)
    requires !HasPrefix([c] + (piece + pat + rest), pat)
    ensures PlainBefore([c] + piece, pat)
  {
    var s, first, q := [c] + (piece + pat + rest), [c] + piece, pat[..|pat| - 1];
    forall i | 0 <= i <= |first + q|
      ensures !HasPrefix((first + q)[i..], pat)
    {
      if i == 0 {
        assert s[..|pat|] == (first + q)[..|pat|];
      } else {
        assert (first + q)[i..] == (piece + q)[i - 1..];
      }
    }
  }

  /**
   * The pieces of `s` between the occurrences of `pat` that a left-to-right
   * scan without overlaps finds.
   */
  function SplitOn(s: string, pat: string): (pieces: seq<string>)
    requires |pat| > 0
    ensures |pieces| > 0
    decreases |s|
  {
    if HasPrefix(s, pat) then [""] + SplitOn(s[|pat|..], pat)
    else if |s| == 0 then [""]
    else
      var r := SplitOn(s[1..], pat);
      [[s[0]] + r[0]] + r[1..]
  }

  /** Joining a first piece in front of at least one more. */
  lemma JoinWithCons(first: string, rest: seq<string>, sep: string)
    requires |rest| > 0
    ensures JoinWith([first] + rest, sep) == first + sep + JoinWith(rest, sep)
  {
    assert ([first] + rest)[1..] == rest;
  }

  /** A character put in front of the first piece comes out in front of the joined text. */
  lemma JoinWithFront(c: char, pieces: seq<string>, sep: string)
    requires |pieces| > 0
    ensures JoinWith([[c] + pieces[0]] + pieces[1..], sep) == [c] + JoinWith(pieces, sep)
  {
    if |pieces| > 1 {
      JoinWithCons([c] + pieces[0], pieces[1..], sep);
      assert ([c] + pieces[0]) + sep + JoinWith(pieces[1..], sep) == [c] + (pieces[0] + sep + JoinWith(pieces[1..], sep));
    }
  }

  /** A text that starts with the pattern is the pattern and what follows it. */
  lemma PrefixThenRest(s: string, pat: string)
    requires HasPrefix(s, pat)
    ensures pat + s[|pat|..] == s
  {
    assert s == s[..|pat|] + s[|pat|..];
  }

  /** A non-empty text is its first character and what follows it. */
  lemma FirstThenRest(s: string)
    requires |s| > 0
    ensures [s[0]] + s[1..] == s
  {
  }

  /** The pieces rejoined by the pattern give the text back. */
  lemma {:induction false} SplitOnRejoins(s: string, pat: string)
    requires |pat| > 0
    ensures JoinWith(SplitOn(s, pat), pat) == s
    decreases |s|
  {
    if HasPrefix(s, pat) {
      var r := SplitOn(s[|pat|..], pat);
      SplitOnRejoins(s[|pat|..], pat);
      JoinWithCons("", r, pat);
      assert "" + pat == pat;
      PrefixThenRest(s, pat);
    } else if |s| > 0 {
      var r := SplitOn(s[1..], pat);
      SplitOnRejoins(s[1..], pat);
      JoinWithFront(s[0], r, pat);
      FirstThenRest(s);
    }
  }

  /** The pattern does not occur in the last piece. */
  lemma {:induction false} SplitOnLast(s: string, pat: string)
    requires |pat| > 0
    ensures !Occurs(SplitOn(s, pat)[|SplitOn(s, pat)| - 1], pat)
    decreases |s|
  {
    var pieces := SplitOn(s, pat);
    if HasPrefix(s, pat) {
      var r := SplitOn(s[|pat|..], pat);
      SplitOnLast(s[|pat|..], pat);
      assert pieces[|pieces| - 1] == r[|r| - 1];
    } else if |s| == 0 {
      assert pieces[0] == "";
      assert !HasPrefix(""[0..], pat);
    } else {
      var r := SplitOn(s[1..], pat);
      SplitOnLast(s[1..], pat);
      if |r| == 1 {
        SplitOnRejoins(s[1..], pat);
        OccursCons(s, pat);
        FirstThenRest(s);
      } else {
        assert pieces[|pieces| - 1] == r[|r| - 1];
      }
    }
  }

  /**
   * No occurrence starts inside any piece but the last, and there is more
   * than one piece exactly when the pattern occurs.
   */
  lemma {:induction false} SplitOnPlain(s: string, pat: string)
    requires |pat| > 0
    ensures var pieces := SplitOn(s, pat);
      && (forall k :: 0 <= k < |pieces| - 1 ==> PlainBefore(pieces[k], pat))
      && (Occurs(s, pat) <==> |pieces| > 1)
    decreases |s|
  {
    var pieces := SplitOn(s, pat);
    if HasPrefix(s, pat) {
      var r := SplitOn(s[|pat|..], pat);
      SplitOnPlain(s[|pat|..], pat);
      assert pieces == [""] + r;
      var q := pat[..|pat| - 1];
      ShortAbsent(q, pat);
      assert "" + q == q;
      assert s[0..] == s;
    } else if |s| == 0 {
      assert !HasPrefix(s[0..], pat);
    } else {
      var r := SplitOn(s[1..], pat);
      SplitOnPlain(s[1..], pat);
      OccursCons(s, pat);
      if |r| > 1 {
        SplitOnRejoins(s[1..], pat);
        JoinWithCons(r[0], r[1..], pat);
        assert [r[0]] + r[1..] == r;
        FirstThenRest(s);
        PlainBeforeCons(s[0], r[0], pat, JoinWith(r[1..], pat));
        assert pieces[1..] == r[1..];
      }
    }
  }

  /** `replace` puts the replacement between the pieces the scan finds. */
  lemma ReplaceSplit(s: string, pat: string, rep: string)
    requires |pat| > 0
    ensures JoinWith(SplitOn(s, pat), pat) == s
    ensures Replace(s, pat, rep) == JoinWith(SplitOn(s, pat), rep)
  {
    SplitOnRejoins(s, pat);
    SplitOnPlain(s, pat);
    SplitOnLast(s, pat);
    ReplaceJoined(SplitOn(s, pat), pat, rep);
  }

  /** A longer separator gives a longer text once there are two pieces. */
  lemma {:induction false} JoinWithLonger(pieces: seq<string>, a: string, b: string)
    requires |pieces| > 1 && |a| < |b|
    ensures |JoinWith(pieces, a)| < |JoinWith(pieces, b)|
    decreases |pieces|
  {
    if |pieces| > 2 {
      JoinWithLonger(pieces[1..], a, b);
    }
  }

  /** The path of the file with a given index: every `%NNN%` becomes the index padded to four digits. */
  function PathFromTemplate(template: string, index: nat): string
    requires index < U32
  {
    Replace(template, Pattern, ZeroPad(index, 4))
  }

  /** A template without the placeholder is the path of every file. */
  lemma TemplateWithoutPattern(template: string, index: nat)
    requires index < U32
    requires !Occurs(template, Pattern)
    ensures PathFromTemplate(template, index) == template
  {
    ReplaceAbsent(template, Pattern, ZeroPad(index, 4));
  }

  /**
   * Every placeholder of the template becomes the index in decimal,
   * zero-padded to four digits and never cut: the path is the template's
   * pieces between placeholders, joined by text that reads back as the index.
   */
  lemma TemplateIndex(template: string, index: nat)
    requires index < U32
    ensures var pieces, pad := SplitOn(template, Pattern), ZeroPad(index, 4);
      JoinWith(pieces, Pattern) == template
      && PathFromTemplate(template, index) == JoinWith(pieces, pad)
      && |pad| >= 4 && ParseDecimal(pad) == Some(index)
      && (|pad| > 4 ==> pad == Decimal(index))
  {
    ReplaceSplit(template, Pattern, ZeroPad(index, 4));
    ZeroPadShape(index, 4);
    ZeroPadRoundTrip(index, 4);
  }

  /** Different indices give different paths when the template holds the placeholder. */
  lemma DistinctIndicesDistinctPaths(template: string, i: nat, j: nat)
    requires i < U32 && j < U32 && i != j
    requires Occurs(template, Pattern)
    ensures PathFromTemplate(template, i) != PathFromTemplate(template, j)
  {
    TemplateIndex(template, i);
    TemplateIndex(template, j);
    SplitOnPlain(template, Pattern);
    var pieces := SplitOn(template, Pattern);
    var a, b := ZeroPad(i, 4), ZeroPad(j, 4);
    assert a != b;
    if |a| < |b| {
      JoinWithLonger(pieces, a, b);
    } else if |b| < |a| {
      JoinWithLonger(pieces, b, a);
    } else {
      var n := |pieces[0]|;
      assert JoinWith(pieces, a)[n..n + |a|] == a;
      assert JoinWith(pieces, b)[n..n + |b|] == b;
    }
  }

  // ---------------------------------------------------------------- configuration

  const MB: nat := 1_000_000

  /** With no block sizes configured: 1, 2, 4, 8, 16 and 32 MB. */
  const DefaultBlockSizes: seq<nat> := [1 * MB, 2 * MB, 4 * MB, 8 * MB, 16 * MB, 32 * MB]

  /** Byte counts cast to a 64-bit size; a count that comes out zero is refused. */
  function NonZeroSizes(sizes: seq<nat>): (r: Result<seq<nat>, string>)
    ensures r.Ok? <==> forall i :: 0 <= i < |sizes| ==> sizes[i] % U64 != 0
    ensures r.Ok? ==> |r.value| == |sizes| && forall i :: 0 <= i < |sizes| ==> r.value[i] == sizes[i] % U64
    ensures r.Err? ==> r.error == "bytes must be non-zero"
  {
    if |sizes| == 0 then Ok([])
    else if sizes[0] % U64 == 0 then Err("bytes must be non-zero")
    else match NonZeroSizes(sizes[1..])
      case Err(e) => Err(e)
      case Ok(rest) => Ok([sizes[0] % U64] + rest)
  }

  /** The block sizes of a file generator: the configured ones, or the defaults. */
  function BlockSizes(configured: Option<seq<nat>>): Result<seq<nat>, string>
  {
    NonZeroSizes(if configured.Some? then configured.value else DefaultBlockSizes)
  }

  /** Without configured sizes the defaults are taken, all of them valid and doubling from 1 MB. */
  lemma DefaultBlockSizesUsed()
    ensures BlockSizes(None) == Ok(DefaultBlockSizes)
    ensures DefaultBlockSizes[0] == 1_000_000
    ensures forall i :: 0 < i < |DefaultBlockSizes| ==> DefaultBlockSizes[i] == 2 * DefaultBlockSizes[i - 1]
  {
    var r := NonZeroSizes(DefaultBlockSizes);
    assert r.Ok?;
    assert r.value == DefaultBlockSizes;
  }

  /** The file-size limit: the configured bytes cast to 32 bits, refused when that is zero. */
  function MaximumBytesPerFile(bytes: nat): (r: Option<nat>)
    ensures r.Some? <==> bytes % U32 != 0
    ensures r.Some? ==> 0 < r.value < U32 && r.value == bytes % U32
  {
    if bytes % U32 == 0 then None else Some(bytes % U32)
  }

  // ---------------------------------------------------------------- the shared index counter

  /** The 32-bit index a ticket of the wrapping counter denotes. */
  function IndexOf(ticket: nat): (index: nat)
    ensures index < U32
  {
    ticket % U32
  }

  /** A 32-bit counter that fetch-and-add wraps; it counts the tickets it has handed out. */
  class FileIndex {
    var value: nat
    ghost var issued: nat

    ghost predicate Valid()
      reads this
    {
      value == IndexOf(issued)
    }

    constructor ()
      ensures Valid() && issued == 0 && value == 0
    {
      value := 0;
      issued := 0;
    }

    /** Hands out the current value and advances by one, wrapping at 2^32. */
    method FetchAdd() returns (previous: nat)
      requires Valid()
      modifies this
      ensures Valid()
      ensures issued == old(issued) + 1
      ensures previous == old(value) == IndexOf(old(issued))
    {
      previous := value;
      value := (value + 1) % U32;
      WrapStep(issued);
      issued := issued + 1;
    }
  }

  lemma WrapStep(n: nat)
    ensures (IndexOf(n) + 1) % U32 == IndexOf(n + 1)
  {
  }

  // ---------------------------------------------------------------- one writer

  /** A sequence is its front followed by its last element. */
  lemma FrontAndLast<T>(s: seq<T>)
    requires |s| > 0
    ensures s[..|s| - 1] + [s[|s| - 1]] == s
  {
  }

  /** Replacing the last element keeps the front. */
  lemma ReplaceLast<T>(s: seq<T>, x: T)
    requires |s| > 0
    ensures s[|s| - 1 := x] == s[..|s| - 1] + [x]
  {
  }

  /** What a writer does to the file system. */
  datatype FileOp =
    | Open(path: string, truncate: bool)
    | Write(bytes: nat)
    | Flush
    | Remove(path: string)

  function Total(xs: seq<nat>): nat
  {
    if |xs| == 0 then 0 else Total(xs[..|xs| - 1]) + xs[|xs| - 1]
  }

  lemma TotalSnoc(xs: seq<nat>, x: nat)
    ensures Total(xs + [x]) == Total(xs) + x
  {
    assert (xs + [x])[..|xs|] == xs;
  }

  /** Replacing the last entry changes the total by the difference. */
  lemma TotalUpdateLast(xs: seq<nat>, x: nat)
    requires |xs| > 0
    ensures Total(xs[|xs| - 1 := x]) + xs[|xs| - 1] == Total(xs) + x
  {
    assert xs[|xs| - 1 := x][..|xs| - 1] == xs[..|xs| - 1];
  }

  /** Whether tickets are handed out in strictly increasing order: each one above the one before. */
  predicate Ascending(ts: seq<nat>)
  {
    |ts| <= 1 || (ts[|ts| - 2] < ts[|ts| - 1] && Ascending(ts[..|ts| - 1]))
  }

  /** An ascending sequence is strictly increasing between any two positions. */
  lemma {:induction false} AscendingIncreasing(ts: seq<nat>, i: nat, j: nat)
    requires Ascending(ts)
    requires i < j < |ts|
    ensures ts[i] < ts[j]
    decreases |ts|
  {
    var init := ts[..|ts| - 1];
    if j < |ts| - 1 {
      AscendingIncreasing(init, i, j);
      assert init[i] == ts[i] && init[j] == ts[j];
    } else if i < |ts| - 2 {
      AscendingIncreasing(init, i, |ts| - 2);
      assert init[i] == ts[i] && init[|ts| - 2] == ts[|ts| - 2];
    }
  }

  /**
   * What a writer has done so far: the counter tickets of the files it
   * opened, the bytes each received and the blocks that went into each,
   * oldest first; for each file closed by rotation, the block that took it
   * over the limit; every block written.
   */
  datatype Log = Log(tickets: seq<nat>, sizes: seq<nat>, closingBlocks: seq<nat>, blocks: seq<nat>, files: seq<seq<nat>>)

  /** The log of a writer that has just opened its first file. */
  function Opened(ticket: nat): Log
  {
    Log([ticket], [0], [], [], [[]])
  }

  /** A block written into the current file. */
  function Appended(log: Log, block: nat): Log
    requires |log.sizes| > 0 && |log.files| > 0
  {
    var last, current := |log.sizes| - 1, |log.files| - 1;
    log.(sizes := log.sizes[last := log.sizes[last] + block], blocks := log.blocks + [block],
         files := log.files[current := log.files[current] + [block]])
  }

  /** The current file closed after `block` went into it, and a new empty file opened with `ticket`. */
  function Closed(log: Log, block: nat, ticket: nat): Log
  {
    log.(tickets := log.tickets + [ticket], sizes := log.sizes + [0], closingBlocks := log.closingBlocks + [block],
         files := log.files + [[]])
  }

  /**
   * A running writer's log: tickets strictly increase and were all handed
   * out; the current file holds `current` bytes, at most the limit; the
   * files together hold every byte written.
   */
  ghost predicate Good(log: Log, issued: nat, maximum: nat, current: nat)
  {
    && |log.tickets| >= 1 && |log.sizes| == |log.tickets| && |log.closingBlocks| == |log.tickets| - 1
    && |log.files| == |log.tickets|
    && Ascending(log.tickets)
    && log.tickets[|log.tickets| - 1] < issued
    && current == log.sizes[|log.sizes| - 1] <= maximum
    && Total(log.sizes) == Total(log.blocks)
  }

  /** Opening the first file starts a good log. */
  lemma GoodOpened(ticket: nat, maximum: nat)
    ensures Good(Opened(ticket), ticket + 1, maximum, 0)
  {
  }

  /** A block that keeps the file within the limit keeps the log good. */
  lemma GoodAppended(log: Log, issued: nat, maximum: nat, current: nat, block: nat)
    requires Good(log, issued, maximum, current)
    requires current + block <= maximum
    ensures Good(Appended(log, block), issued, maximum, current + block)
  {
    TotalSnoc(log.blocks, block);
    TotalUpdateLast(log.sizes, current + block);
  }

  /** Rotation keeps the bytes of the files adding up to the bytes of the blocks. */
  lemma RotatedTotal(log: Log, current: nat, block: nat, ticket: nat)
    requires |log.sizes| > 0 && |log.files| > 0 && current == log.sizes[|log.sizes| - 1]
    requires Total(log.sizes) == Total(log.blocks)
    ensures var next := Closed(Appended(log, block), block, ticket);
      Total(next.sizes) == Total(next.blocks)
  {
    TotalSnoc(log.blocks, block);
    TotalUpdateLast(log.sizes, current + block);
    TotalSnoc(Appended(log, block).sizes, 0);
  }

  /** A ticket above every earlier one keeps the tickets ascending. */
  lemma AscendingSnoc(ts: seq<nat>, t: nat)
    requires Ascending(ts) && |ts| > 0 && ts[|ts| - 1] < t
    ensures Ascending(ts + [t])
  {
    assert (ts + [t])[..|ts|] == ts;
  }

  /** A block that takes the file over the limit, followed by a rotation to the next ticket, keeps the log good. */
  lemma GoodRotated(log: Log, issued: nat, maximum: nat, current: nat, block: nat)
    requires Good(log, issued, maximum, current)
    requires current + block > maximum
    ensures Good(Closed(Appended(log, block), block, issued), issued + 1, maximum, 0)
  {
    RotatedTotal(log, current, block, issued);
    AscendingSnoc(log.tickets, issued);
  }

  // ---------------------------------------------------------------- the rotation rule

  /** The blocks of the files, one file after another. */
  function Concat(files: seq<seq<nat>>): seq<nat>
  {
    if |files| == 0 then [] else Concat(files[..|files| - 1]) + files[|files| - 1]
  }

  /**
   * Whether each closed file received blocks up to and including the first
   * one that took it strictly over the limit, and no more: the file is not
   * empty, its last block is its closing block, the blocks before that one
   * keep it within the limit, and with that block it holds `sizes[i]` bytes,
   * more than the limit.
   */
  predicate Cut(files: seq<seq<nat>>, sizes: seq<nat>, closingBlocks: seq<nat>, maximum: nat)
    requires |files| == |sizes| == |closingBlocks|
  {
    |files| == 0
    || (var n, f := |files| - 1, files[|files| - 1];
        && |f| > 0 && f[|f| - 1] == closingBlocks[n]
        && Total(f) == sizes[n]
        && Total(f[..|f| - 1]) <= maximum < sizes[n]
        && Cut(files[..n], sizes[..n], closingBlocks[..n], maximum))
  }

  /** The rotation rule, file by file. */
  lemma {:induction false} CutAt(files: seq<seq<nat>>, sizes: seq<nat>, closingBlocks: seq<nat>, maximum: nat, i: nat)
    requires |files| == |sizes| == |closingBlocks|
    requires Cut(files, sizes, closingBlocks, maximum)
    requires i < |files|
    ensures var f := files[i];
      && |f| > 0 && f[|f| - 1] == closingBlocks[i]
      && Total(f) == sizes[i]
      && Total(f[..|f| - 1]) <= maximum < sizes[i] <= maximum + closingBlocks[i]
    decreases |files|
  {
    var n := |files| - 1;
    if i < n {
      CutAt(files[..n], sizes[..n], closingBlocks[..n], maximum, i);
      assert files[..n][i] == files[i] && sizes[..n][i] == sizes[i] && closingBlocks[..n][i] == closingBlocks[i];
    }
    var f := files[i];
    assert f == f[..|f| - 1] + [f[|f| - 1]];
    TotalSnoc(f[..|f| - 1], f[|f| - 1]);
  }

  /** One more closed file, cut at its first block over the limit. */
  lemma CutSnoc(files: seq<seq<nat>>, sizes: seq<nat>, closingBlocks: seq<nat>, maximum: nat,
                f: seq<nat>, size: nat, block: nat)
    requires |files| == |sizes| == |closingBlocks|
    requires Cut(files, sizes, closingBlocks, maximum)
    requires |f| > 0 && f[|f| - 1] == block && Total(f) == size && Total(f[..|f| - 1]) <= maximum < size
    ensures Cut(files + [f], sizes + [size], closingBlocks + [block], maximum)
  {
    var n := |files|;
    assert (files + [f])[..n] == files && (sizes + [size])[..n] == sizes && (closingBlocks + [block])[..n] == closingBlocks;
  }

  /**
   * How a log cuts the blocks into files: one file after another they hold
   * exactly the blocks written, every closed file was closed at its first
   * block over the limit, and the current file, holding `current` bytes, is
   * within the limit.
   */
  ghost predicate Partitioned(log: Log, maximum: nat, current: nat)
  {
    && |log.files| == |log.sizes| == |log.closingBlocks| + 1
    && Cut(log.files[..|log.closingBlocks|], log.sizes[..|log.closingBlocks|], log.closingBlocks, maximum)
    && Total(log.files[|log.closingBlocks|]) == current == log.sizes[|log.closingBlocks|] <= maximum
    && Concat(log.files) == log.blocks
  }

  lemma PartitionedOpened(ticket: nat, maximum: nat)
    ensures Partitioned(Opened(ticket), maximum, 0)
  {
    assert Concat([[]]) == Concat([]) + [];
  }

  /** Adding a block to the last file adds it to the end of all the blocks. */
  lemma ConcatAppendLast(files: seq<seq<nat>>, block: nat)
    requires |files| > 0
    ensures Concat(files[|files| - 1 := files[|files| - 1] + [block]]) == Concat(files) + [block]
  {
    var n := |files| - 1;
    assert files[n := files[n] + [block]][..n] == files[..n];
  }

  /** A block that keeps the current file within the limit goes into it. */
  lemma PartitionedAppended(log: Log, maximum: nat, current: nat, block: nat)
    requires Partitioned(log, maximum, current)
    requires current + block <= maximum
    ensures Partitioned(Appended(log, block), maximum, current + block)
  {
    var next, k := Appended(log, block), |log.closingBlocks|;
    TotalSnoc(log.files[k], block);
    ConcatAppendLast(log.files, block);
    assert next.files[..k] == log.files[..k] && next.sizes[..k] == log.sizes[..k];
  }

  /** Closing the last file at the block that took it over the limit. */
  lemma CutClose(files: seq<seq<nat>>, sizes: seq<nat>, closingBlocks: seq<nat>, maximum: nat, block: nat)
    requires |files| == |sizes| == |closingBlocks| + 1
    requires Cut(files[..|closingBlocks|], sizes[..|closingBlocks|], closingBlocks, maximum)
    requires Total(files[|closingBlocks|]) == sizes[|closingBlocks|] <= maximum < sizes[|closingBlocks|] + block
    ensures var k := |closingBlocks|;
      Cut(files[k := files[k] + [block]], sizes[k := sizes[k] + block], closingBlocks + [block], maximum)
  {
    var k := |closingBlocks|;
    var f := files[k] + [block];
    assert Total(f) == sizes[k] + block && f[..|f| - 1] == files[k] by {
      TotalSnoc(files[k], block);
    }
    CutSnoc(files[..k], sizes[..k], closingBlocks, maximum, f, sizes[k] + block, block);
    ReplaceLast(files, f);
    ReplaceLast(sizes, sizes[k] + block);
  }

  /** A block that takes the current file over the limit closes it, and a new empty file follows. */
  lemma PartitionedRotated(log: Log, maximum: nat, current: nat, block: nat, ticket: nat)
    requires Partitioned(log, maximum, current)
    requires current + block > maximum
    ensures Partitioned(Closed(Appended(log, block), block, ticket), maximum, 0)
  {
    var full := Appended(log, block);
    assert Cut(full.files, full.sizes, log.closingBlocks + [block], maximum) by {
      CutClose(log.files, log.sizes, log.closingBlocks, maximum, block);
    }
    assert Concat(full.files) == full.blocks by {
      ConcatAppendLast(log.files, block);
    }
    PartitionedFresh(full.files, full.sizes, log.closingBlocks + [block], full.blocks, log.tickets + [ticket], maximum);
  }

  /** Files all closed by the rotation rule, followed by a new empty one. */
  lemma PartitionedFresh(files: seq<seq<nat>>, sizes: seq<nat>, closingBlocks: seq<nat>, blocks: seq<nat>,
                         tickets: seq<nat>, maximum: nat)
    requires |files| == |sizes| == |closingBlocks|
    requires Cut(files, sizes, closingBlocks, maximum) && Concat(files) == blocks
    ensures Partitioned(Log(tickets, sizes + [0], closingBlocks, blocks, files + [[]]), maximum, 0)
  {
    assert (files + [[]])[..|files|] == files;
    assert (sizes + [0])[..|sizes|] == sizes;
  }

  /** A writer between two blocks: its log, the bytes in its current file, and the tickets handed out so far. */
  datatype Progress = Progress(log: Log, current: nat, issued: nat)

  /** A writer that has just opened the file of `ticket`. */
  function Begin(ticket: nat): Progress
  {
    Progress(Opened(ticket), 0, ticket + 1)
  }

  /**
   * One admitted block: it goes into the current file; if that takes the
   * file strictly over the limit, the file is closed and the next ticket's
   * file, empty, becomes the current one.
   */
  function Admit(p: Progress, maximum: nat, block: nat): (q: Progress)
    requires |p.log.sizes| > 0 && |p.log.files| > 0
    ensures |q.log.sizes| > 0 && |q.log.files| > 0
  {
    if p.current + block <= maximum then Progress(Appended(p.log, block), p.current + block, p.issued)
    else Progress(Closed(Appended(p.log, block), block, p.issued), 0, p.issued + 1)
  }

  /** The blocks admitted one after another. */
  function AdmitAll(p: Progress, maximum: nat, blocks: seq<nat>): (q: Progress)
    requires |p.log.sizes| > 0 && |p.log.files| > 0
    ensures |q.log.sizes| > 0 && |q.log.files| > 0
  {
    if |blocks| == 0 then p else Admit(AdmitAll(p, maximum, blocks[..|blocks| - 1]), maximum, blocks[|blocks| - 1])
  }

  lemma AdmitAllSnoc(p: Progress, maximum: nat, blocks: seq<nat>, i: nat)
    requires |p.log.sizes| > 0 && |p.log.files| > 0
    requires i < |blocks|
    ensures AdmitAll(p, maximum, blocks[..i + 1]) == Admit(AdmitAll(p, maximum, blocks[..i]), maximum, blocks[i])
  {
    assert blocks[..i + 1][..i] == blocks[..i];
  }

  /** Admitting one block keeps the files cut by the rotation rule. */
  lemma PartitionedAdmit(p: Progress, maximum: nat, block: nat)
    requires Partitioned(p.log, maximum, p.current)
    ensures var q := Admit(p, maximum, block);
      Partitioned(q.log, maximum, q.current) && q.log.blocks == p.log.blocks + [block]
  {
    if p.current + block <= maximum {
      PartitionedAppended(p.log, maximum, p.current, block);
    } else {
      PartitionedRotated(p.log, maximum, p.current, block, p.issued);
    }
  }

  /**
   * The rotation rule of `spin`, for every run: the files, one after
   * another, hold exactly the blocks admitted; each file but the current one
   * received blocks up to and including the first that took it strictly
   * over the limit, and no more; the current file is within the limit.
   */
  lemma {:induction false} RotationRule(ticket: nat, maximum: nat, blocks: seq<nat>)
    ensures var q := AdmitAll(Begin(ticket), maximum, blocks);
      Partitioned(q.log, maximum, q.current) && q.log.blocks == blocks
    decreases |blocks|
  {
    if |blocks| == 0 {
      PartitionedOpened(ticket, maximum);
    } else {
      var n := |blocks| - 1;
      RotationRule(ticket, maximum, blocks[..n]);
      PartitionedAdmit(AdmitAll(Begin(ticket), maximum, blocks[..n]), maximum, blocks[n]);
      FrontAndLast(blocks);
    }
  }

  /**
   * The rotation rule for one closed file: it received blocks up to the
   * first one that took it over the limit, so it holds more than the limit
   * and no more than the limit plus that closing block.
   */
  lemma SoftLimit(log: Log, maximum: nat, current: nat, i: nat)
    requires Partitioned(log, maximum, current)
    requires i < |log.closingBlocks|
    ensures var f := log.files[i];
      && |f| > 0 && f[|f| - 1] == log.closingBlocks[i]
      && Total(f) == log.sizes[i]
      && Total(f[..|f| - 1]) <= maximum < log.sizes[i] <= maximum + log.closingBlocks[i]
  {
    var k := |log.closingBlocks|;
    CutAt(log.files[..k], log.sizes[..k], log.closingBlocks, maximum, i);
    assert log.files[..k][i] == log.files[i] && log.sizes[..k][i] == log.sizes[i];
  }

  // ---------------------------------------------------------------- what the file system saw

  /**
   * What the file system saw of a run of operations: the files opened, the
   * bytes written through each opened handle, every block written, and the
   * paths removed.
   */
  datatype Trace = Trace(opens: seq<FileOp>, sizes: seq<nat>, writes: seq<nat>, removes: seq<string>)

  /**
   * One more operation: an open starts a new count of bytes written through
   * it, whether or not it truncates; a write adds to the newest count.
   */
  function Step(trace: Trace, op: FileOp): Trace
  {
    match op
    case Open(_, _) => trace.(opens := trace.opens + [op], sizes := trace.sizes + [0])
    case Write(bytes) =>
      var sizes := trace.sizes;
      trace.(sizes := if |sizes| > 0 then sizes[|sizes| - 1 := sizes[|sizes| - 1] + bytes] else sizes,
             writes := trace.writes + [bytes])
    case Flush => trace
    case Remove(path) => trace.(removes := trace.removes + [path])
  }

  function Replay(ops: seq<FileOp>): Trace
  {
    if |ops| == 0 then Trace([], [], [], []) else Step(Replay(ops[..|ops| - 1]), ops[|ops| - 1])
  }

  /** The paths of the files with the given tickets. */
  function Paths(template: string, tickets: seq<nat>): seq<string>
  {
    if |tickets| == 0 then []
    else Paths(template, tickets[..|tickets| - 1]) + [PathFromTemplate(template, IndexOf(tickets[|tickets| - 1]))]
  }

  /** Opening the files with the given tickets: only the first is truncated. */
  function OpensOf(template: string, tickets: seq<nat>): seq<FileOp>
  {
    if |tickets| == 0 then []
    else
      var n := |tickets| - 1;
      OpensOf(template, tickets[..n]) + [Open(PathFromTemplate(template, IndexOf(tickets[n])), n == 0)]
  }

  /** The i-th path is that of the i-th ticket's index. */
  lemma {:induction false} PathsAt(template: string, tickets: seq<nat>, i: nat)
    requires i < |tickets|
    ensures |Paths(template, tickets)| == |tickets|
    ensures Paths(template, tickets)[i] == PathFromTemplate(template, IndexOf(tickets[i]))
  {
    var n := |tickets| - 1;
    var front := tickets[..n];
    assert Paths(template, tickets) == Paths(template, front) + [PathFromTemplate(template, IndexOf(tickets[n]))];
    if n > 0 {
      PathsAt(template, front, if i < n then i else 0);
    }
    if i < n {
      assert front[i] == tickets[i];
    }
  }


  /** The i-th file opened is the i-th ticket's, and only the first is truncated. */
  lemma {:induction false} OpensOfAt(template: string, tickets: seq<nat>, i: nat)
    requires i < |tickets|
    ensures |OpensOf(template, tickets)| == |tickets|
    ensures OpensOf(template, tickets)[i] == Open(PathFromTemplate(template, IndexOf(tickets[i])), i == 0)
  {
    var n := |tickets| - 1;
    var front := tickets[..n];
    assert OpensOf(template, tickets) == OpensOf(template, front) + [Open(PathFromTemplate(template, IndexOf(tickets[n])), n == 0)];
    if n > 0 {
      OpensOfAt(template, front, if i < n then i else 0);
    }
    if i < n {
      assert front[i] == tickets[i];
    }
  }


  /**
   * Whether the operations are those of a writer with the given log: every
   * block written in order, the files opened in ticket order (only the first
   * truncated), the bytes written between one open and the next making up
   * that file's size, and, when rotating, exactly the closed files removed.
   */
  predicate OpsMatch(ops: seq<FileOp>, template: string, rotate: bool, log: Log)
  {
    && |log.closingBlocks| <= |log.tickets|
    && Replay(ops) == Trace(OpensOf(template, log.tickets), log.sizes, log.blocks,
                            if rotate then Paths(template, log.tickets[..|log.closingBlocks|]) else [])
  }

  lemma ReplaySnoc(ops: seq<FileOp>, op: FileOp)
    ensures Replay(ops + [op]) == Step(Replay(ops), op)
  {
    assert (ops + [op])[..|ops|] == ops;
  }

  /** Opening the file of the next ticket adds one empty file. */
  lemma MatchOpen(ops: seq<FileOp>, template: string, rotate: bool, log: Log, ticket: nat)
    requires OpsMatch(ops, template, rotate, log)
    ensures OpsMatch(ops + [Open(PathFromTemplate(template, IndexOf(ticket)), |log.tickets| == 0)],
                     template, rotate, log.(tickets := log.tickets + [ticket], sizes := log.sizes + [0], files := log.files + [[]]))
  {
    var op := Open(PathFromTemplate(template, IndexOf(ticket)), |log.tickets| == 0);
    ReplaySnoc(ops, op);
    var more := log.tickets + [ticket];
    assert more[..|log.tickets|] == log.tickets;
    assert OpensOf(template, more) == OpensOf(template, log.tickets) + [op];
    assert more[..|log.closingBlocks|] == log.tickets[..|log.closingBlocks|];
  }

  /** A block written goes into the current file. */
  lemma MatchWrite(ops: seq<FileOp>, template: string, rotate: bool, log: Log, block: nat)
    requires OpsMatch(ops, template, rotate, log)
    requires |log.sizes| > 0 && |log.files| > 0
    ensures OpsMatch(ops + [Write(block)], template, rotate, Appended(log, block))
  {
    ReplaySnoc(ops, Write(block));
  }

  /** A flush changes none of the files. */
  lemma MatchFlush(ops: seq<FileOp>, template: string, rotate: bool, log: Log)
    requires OpsMatch(ops, template, rotate, log)
    ensures OpsMatch(ops + [Flush], template, rotate, log)
  {
    ReplaySnoc(ops, Flush);
  }

  /** Closing the oldest open file: removed when rotating, left in place otherwise. */
  lemma MatchClose(ops: seq<FileOp>, template: string, rotate: bool, log: Log, block: nat)
    requires OpsMatch(ops, template, rotate, log)
    requires |log.closingBlocks| < |log.tickets|
    ensures OpsMatch(ops + (if rotate then [Remove(PathFromTemplate(template, IndexOf(log.tickets[|log.closingBlocks|])))] else []),
                     template, rotate, log.(closingBlocks := log.closingBlocks + [block]))
  {
    var c := |log.closingBlocks|;
    assert log.tickets[..c + 1] == log.tickets[..c] + [log.tickets[c]];
    if rotate {
      ReplaySnoc(ops, Remove(PathFromTemplate(template, IndexOf(log.tickets[c]))));
    } else {
      assert ops + [] == ops;
    }
  }

  /** `spin`'s first step: the first file created, or truncated. */
  lemma MatchStarted(ops: seq<FileOp>, template: string, rotate: bool, ticket: nat, opening: string)
    requires ops == []
    requires opening == PathFromTemplate(template, IndexOf(ticket))
    ensures OpsMatch(ops + [Open(opening, true)], template, rotate, Opened(ticket))
  {
    var op := Open(opening, true);
    ReplaySnoc([], op);
    assert [] + [op] == [op];
    assert Opened(ticket).tickets[..0] == [];
    assert OpensOf(template, [ticket]) == [op] by {
      assert [ticket][..0] == [];
    }
  }

  /**
   * A block that takes the current file over the limit: written, flushed,
   * the file removed when rotating, and the next ticket's file opened.
   */
  lemma MatchRotated(ops: seq<FileOp>, template: string, rotate: bool, log: Log, block: nat, ticket: nat,
                     closing: string, opening: string)
    requires OpsMatch(ops, template, rotate, log)
    requires |log.tickets| > 0 && |log.sizes| > 0 && |log.files| > 0 && |log.closingBlocks| == |log.tickets| - 1
    requires closing == PathFromTemplate(template, IndexOf(log.tickets[|log.tickets| - 1]))
    requires opening == PathFromTemplate(template, IndexOf(ticket))
    ensures OpsMatch(ops + [Write(block), Flush] + (if rotate then [Remove(closing)] else []) + [Open(opening, false)],
                     template, rotate, Closed(Appended(log, block), block, ticket))
  {
    var full := Appended(log, block);
    MatchWrite(ops, template, rotate, log, block);
    MatchFlush(ops + [Write(block)], template, rotate, full);
    var flushed := ops + [Write(block)] + [Flush];
    assert flushed == ops + [Write(block), Flush];
    MatchClose(flushed, template, rotate, full, block);
    var closed := full.(closingBlocks := full.closingBlocks + [block]);
    var removed := flushed + (if rotate then [Remove(PathFromTemplate(template, IndexOf(log.tickets[|log.tickets| - 1])))] else []);
    MatchOpen(removed, template, rotate, closed, ticket);
  }

  lemma WrittenSnoc(written: seq<nat>, admitted: seq<nat>, i: nat)
    requires i < |admitted|
    ensures written + admitted[..i] + [admitted[i]] == written + admitted[..i + 1]
  {
    assert admitted[..i + 1] == admitted[..i] + [admitted[i]];
  }

  /**
   * What a whole run that admitted `admitted` says, through a good log and
   * the operations that match it: every block was written, in order; the
   * files were opened in ticket order, each handle receiving the bytes the
   * log counts; when rotating every file but the current one was removed;
   * the blocks went into the files by the rotation rule, each closed file
   * ending at the first block that took it over the limit and the current
   * file within the limit.
   */
  lemma MatchFinished(ops: seq<FileOp>, template: string, rotate: bool, log: Log, issued: nat, maximum: nat, current: nat,
                      first: nat, admitted: seq<nat>)
    requires Good(log, issued, maximum, current) && OpsMatch(ops, template, rotate, log)
    requires Progress(log, current, issued) == AdmitAll(Begin(first), maximum, admitted)
    ensures log.blocks == admitted
    ensures |log.tickets| == |log.sizes| == |log.closingBlocks| + 1
    ensures Replay(ops).writes == log.blocks
    ensures Replay(ops).sizes == log.sizes && Total(log.sizes) == Total(log.blocks)
    ensures Replay(ops).opens == OpensOf(template, log.tickets)
    ensures Replay(ops).removes == if rotate then Paths(template, log.tickets[..|log.closingBlocks|]) else []
    ensures Ascending(log.tickets)
    ensures |log.files| == |log.tickets| && Concat(log.files) == log.blocks
    ensures forall i :: 0 <= i < |log.closingBlocks| ==>
      var f := log.files[i];
      && |f| > 0 && f[|f| - 1] == log.closingBlocks[i]
      && Total(f) == log.sizes[i]
      && Total(f[..|f| - 1]) <= maximum < log.sizes[i] <= maximum + log.closingBlocks[i]
    ensures Total(log.files[|log.files| - 1]) == log.sizes[|log.sizes| - 1] <= maximum
    ensures Partitioned(log, maximum, current)
  {
    RotationRule(first, maximum, admitted);
    forall i | 0 <= i < |log.closingBlocks|
      ensures var f := log.files[i];
        && |f| > 0 && f[|f| - 1] == log.closingBlocks[i]
        && Total(f) == log.sizes[i]
        && Total(f[..|f| - 1]) <= maximum < log.sizes[i] <= maximum + log.closingBlocks[i]
    {
      SoftLimit(log, maximum, current, i);
    }
  }

  /** One duplicate: writes admitted blocks into its current file and rotates it when it is over the limit. */
  class Child {
    const pathTemplate: string
    const maximumBytesPerFile: nat
    const rotate: bool
    const fileIndex: FileIndex
    var totalBytesWritten: nat
    /** The index of the current file, as the counter handed it out. */
    var index: nat
    var path: string
    /** What the writer did to the file system, in order. */
    var ops: seq<FileOp>
    ghost var log: Log

    ghost predicate Configured()
      reads this, fileIndex
    {
      0 < maximumBytesPerFile < U32 && fileIndex.Valid()
    }

    /** A running writer: its log is good and its file is that of its last ticket. */
    ghost predicate Valid()
      reads this, fileIndex
    {
      Configured()
      && Good(log, fileIndex.issued, maximumBytesPerFile, totalBytesWritten)
      && index == IndexOf(log.tickets[|log.tickets| - 1])
      && path == PathFromTemplate(pathTemplate, index)
    }

    constructor (pathTemplate: string, maximumBytesPerFile: nat, rotate: bool, fileIndex: FileIndex)
      ensures this.pathTemplate == pathTemplate && this.maximumBytesPerFile == maximumBytesPerFile
      ensures this.rotate == rotate && this.fileIndex == fileIndex
      ensures totalBytesWritten == 0 && ops == [] && log == Log([], [], [], [], [])
    {
      this.pathTemplate := pathTemplate;
      this.maximumBytesPerFile := maximumBytesPerFile;
      this.rotate := rotate;
      this.fileIndex := fileIndex;
      totalBytesWritten := 0;
      index := 0;
      path := "";
      ops := [];
      log := Log([], [], [], [], []);
    }

    /**
     * A writer between files: the current file is closed (or none was open
     * yet) and the log already records the ticket the counter hands out next.
     */
    ghost predicate Opening()
      reads this, fileIndex
    {
      Configured() && totalBytesWritten == 0
      && Good(log, fileIndex.issued + 1, maximumBytesPerFile, 0)
      && log.tickets[|log.tickets| - 1] == fileIndex.issued
    }

    /** The start of `spin`: takes the next index and creates (or truncates) its file. */
    method Start()
      requires Configured() && totalBytesWritten == 0 && ops == []
      modifies this, fileIndex
      ensures Valid() && OpsMatch(ops, pathTemplate, rotate, log)
      ensures fileIndex.issued == old(fileIndex.issued) + 1
      ensures log == Opened(old(fileIndex.issued))
      ensures index == IndexOf(old(fileIndex.issued)) && path == PathFromTemplate(pathTemplate, index)
      ensures ops == old(ops) + [Open(path, true)]
      ensures totalBytesWritten == 0
    {
      GoodOpened(fileIndex.issued, maximumBytesPerFile);
      log := Opened(fileIndex.issued);
      OpenFile(true);
      MatchStarted(old(ops), pathTemplate, rotate, old(fileIndex.issued), path);
    }

    /** Takes the next index from the shared counter and opens the file the template names for it. */
    method OpenFile(truncate: bool)
      requires Opening()
      requires truncate <==> |log.tickets| == 1
      modifies this, fileIndex
      ensures Valid()
      ensures log == old(log)
      ensures fileIndex.issued == old(fileIndex.issued) + 1
      ensures index == IndexOf(old(fileIndex.issued)) && path == PathFromTemplate(pathTemplate, index)
      ensures ops == old(ops) + [Open(path, truncate)]
      ensures totalBytesWritten == 0
    {
      index := fileIndex.FetchAdd();
      path := PathFromTemplate(pathTemplate, index);
      ops := ops + [Open(path, truncate)];
    }

    /**
     * One admitted block: it is written and counted; when the count goes
     * strictly over the limit the file is flushed, removed if rotating, and
     * the next index's file is opened without truncation with the count reset.
     */
    method WriteBlock(totalBytes: nat)
      requires Valid() && OpsMatch(ops, pathTemplate, rotate, log)
      requires 0 < totalBytes < U32
      modifies this, fileIndex
      ensures Valid() && OpsMatch(ops, pathTemplate, rotate, log)
      ensures log.blocks == old(log.blocks) + [totalBytes]
      ensures |ops| > |old(ops)| && (|old(ops)| > 0 ==> ops[0] == old(ops)[0])
      ensures old(totalBytesWritten) + totalBytes < U64
      ensures Progress(log, totalBytesWritten, fileIndex.issued)
        == Admit(Progress(old(log), old(totalBytesWritten), old(fileIndex.issued)), maximumBytesPerFile, totalBytes)
      ensures old(totalBytesWritten) + totalBytes <= maximumBytesPerFile ==>
        log == Appended(old(log), totalBytes)
        && totalBytesWritten == old(totalBytesWritten) + totalBytes
        && index == old(index) && path == old(path)
        && ops == old(ops) + [Write(totalBytes)]
        && fileIndex.issued == old(fileIndex.issued)
      ensures old(totalBytesWritten) + totalBytes > maximumBytesPerFile ==>
        log == Closed(Appended(old(log), totalBytes), totalBytes, old(fileIndex.issued))
        && totalBytesWritten == 0
        && fileIndex.issued == old(fileIndex.issued) + 1
        && index == IndexOf(old(fileIndex.issued)) && path == PathFromTemplate(pathTemplate, index)
        && ops == old(ops) + [Write(totalBytes), Flush] + (if rotate then [Remove(old(path))] else []) + [Open(path, false)]
    {
      if totalBytesWritten + totalBytes <= maximumBytesPerFile {
        Append(totalBytes);
        MatchWrite(old(ops), pathTemplate, rotate, old(log), totalBytes);
      } else {
        Close(totalBytes);
        OpenFile(false);
        MatchRotated(old(ops), pathTemplate, rotate, old(log), totalBytes, old(fileIndex.issued), old(path), path);
      }
    }

    /** A block that leaves the file within the limit: written and counted. */
    method Append(totalBytes: nat)
      requires Valid()
      requires totalBytesWritten + totalBytes <= maximumBytesPerFile
      modifies this
      ensures Valid()
      ensures log == Appended(old(log), totalBytes)
      ensures totalBytesWritten == old(totalBytesWritten) + totalBytes
      ensures index == old(index) && path == old(path)
      ensures ops == old(ops) + [Write(totalBytes)]
    {
      GoodAppended(log, fileIndex.issued, maximumBytesPerFile, totalBytesWritten, totalBytes);
      ops := ops + [Write(totalBytes)];
      log := Appended(log, totalBytes);
      totalBytesWritten := totalBytesWritten + totalBytes;
    }

    /**
     * A block that takes the file over the limit: written, then the file is
     * flushed and, when rotating, removed.
     */
    method Close(totalBytes: nat)
      requires Valid()
      requires totalBytesWritten + totalBytes > maximumBytesPerFile
      modifies this
      ensures Opening()
      ensures log == Closed(Appended(old(log), totalBytes), totalBytes, fileIndex.issued)
      ensures index == old(index) && path == old(path)
      ensures ops == old(ops) + [Write(totalBytes), Flush] + (if rotate then [Remove(path)] else [])
    {
      GoodRotated(log, fileIndex.issued, maximumBytesPerFile, totalBytesWritten, totalBytes);
      log := Closed(Appended(log, totalBytes), totalBytes, fileIndex.issued);
      ops := ops + [Write(totalBytes), Flush] + (if rotate then [Remove(path)] else []);
      totalBytesWritten := 0;
    }

    /** The shutdown branch of `spin`: the current file is flushed. */
    method Shutdown()
      requires Valid() && OpsMatch(ops, pathTemplate, rotate, log)
      modifies this
      ensures Valid() && OpsMatch(ops, pathTemplate, rotate, log)
      ensures ops == old(ops) + [Flush]
      ensures totalBytesWritten == old(totalBytesWritten) && index == old(index) && path == old(path) && log == old(log)
    {
      MatchFlush(ops, pathTemplate, rotate, log);
      ops := ops + [Flush];
    }

    /**
     * The loop of `spin`: writes each admitted block in turn, the file system
     * seeing what the log records throughout.
     */
    method WriteAll(admitted: seq<nat>)
      requires Valid() && OpsMatch(ops, pathTemplate, rotate, log)
      requires forall i :: 0 <= i < |admitted| ==> 0 < admitted[i] < U32
      modifies this, fileIndex
      ensures Valid() && OpsMatch(ops, pathTemplate, rotate, log)
      ensures log.blocks == old(log.blocks) + admitted
      ensures Replay(ops).writes == Replay(old(ops)).writes + admitted
      ensures Progress(log, totalBytesWritten, fileIndex.issued)
        == AdmitAll(Progress(old(log), old(totalBytesWritten), old(fileIndex.issued)), maximumBytesPerFile, admitted)
      ensures |ops| >= |old(ops)| && (|old(ops)| > 0 ==> ops[0] == old(ops)[0])
    {
      for i := 0 to |admitted|
        invariant Valid() && OpsMatch(ops, pathTemplate, rotate, log)
        invariant log.blocks == old(log.blocks) + admitted[..i]
        invariant Progress(log, totalBytesWritten, fileIndex.issued)
          == AdmitAll(Progress(old(log), old(totalBytesWritten), old(fileIndex.issued)), maximumBytesPerFile, admitted[..i])
        invariant |ops| >= |old(ops)| && (|old(ops)| > 0 ==> ops[0] == old(ops)[0])
      {
        WrittenSnoc(old(log.blocks), admitted, i);
        AdmitAllSnoc(Progress(old(log), old(totalBytesWritten), old(fileIndex.issued)), maximumBytesPerFile, admitted, i);
        WriteBlock(admitted[i]);
      }
      assert admitted[..|admitted|] == admitted;
    }

    /** `spin` up to the shutdown signal: the first file, every admitted block, the final flush. */
    method Run(admitted: seq<nat>)
      requires Configured() && totalBytesWritten == 0 && ops == []
      requires forall i :: 0 <= i < |admitted| ==> 0 < admitted[i] < U32
      modifies this, fileIndex
      ensures Good(log, fileIndex.issued, maximumBytesPerFile, totalBytesWritten) && OpsMatch(ops, pathTemplate, rotate, log)
      ensures log.blocks == admitted
      ensures Progress(log, totalBytesWritten, fileIndex.issued) == AdmitAll(Begin(old(fileIndex.issued)), maximumBytesPerFile, admitted)
      ensures |ops| >= 2 && ops[0] == Open(PathFromTemplate(pathTemplate, IndexOf(old(fileIndex.issued))), true)
      ensures ops[|ops| - 1] == Flush
    {
      Start();
      WriteAll(admitted);
      Shutdown();
    }

    /**
     * `spin` for a run that admits the given blocks and then receives the
     * shutdown signal.
     */
    method Spin(admitted: seq<nat>)
      requires Configured() && totalBytesWritten == 0 && ops == []
      requires forall i :: 0 <= i < |admitted| ==> 0 < admitted[i] < U32
      modifies this, fileIndex
      ensures |log.tickets| == |log.sizes| == |log.closingBlocks| + 1
      ensures log.blocks == admitted && Replay(ops).writes == admitted
      ensures Progress(log, totalBytesWritten, fileIndex.issued) == AdmitAll(Begin(old(fileIndex.issued)), maximumBytesPerFile, admitted)
      ensures Replay(ops).sizes == log.sizes && Total(log.sizes) == Total(admitted)
      ensures Replay(ops).opens == OpensOf(pathTemplate, log.tickets)
      ensures Replay(ops).removes == if rotate then Paths(pathTemplate, log.tickets[..|log.closingBlocks|]) else []
      ensures Ascending(log.tickets)
      ensures Partitioned(log, maximumBytesPerFile, totalBytesWritten)
      ensures forall i :: 0 <= i < |log.closingBlocks| ==>
        maximumBytesPerFile < log.sizes[i] <= maximumBytesPerFile + log.closingBlocks[i]
      ensures log.sizes[|log.sizes| - 1] <= maximumBytesPerFile
      ensures |ops| >= 2 && ops[0] == Open(PathFromTemplate(pathTemplate, IndexOf(old(fileIndex.issued))), true)
      ensures ops[|ops| - 1] == Flush
    {
      Run(admitted);
      MatchFinished(ops, pathTemplate, rotate, log, fileIndex.issued, maximumBytesPerFile, totalBytesWritten,
                    old(fileIndex.issued), admitted);
    }
  }

  /**
   * `FileGen::new`'s loop: one writer per duplicate, all of them drawing file
   * indices from one counter that starts at zero.
   */
  method NewFileGen(pathTemplate: string, maximumBytesPerFile: nat, rotate: bool, duplicates: nat)
    returns (fileIndex: FileIndex, children: seq<Child>)
    ensures fresh(fileIndex) && fileIndex.Valid() && fileIndex.issued == 0 && fileIndex.value == 0
    ensures |children| == duplicates
    ensures forall i :: 0 <= i < duplicates ==>
      fresh(children[i]) && children[i].fileIndex == fileIndex
      && children[i].pathTemplate == pathTemplate && children[i].maximumBytesPerFile == maximumBytesPerFile
      && children[i].rotate == rotate && children[i].totalBytesWritten == 0 && children[i].ops == []
    ensures forall i, j :: 0 <= i < j < duplicates ==> children[i] != children[j]
  {
    fileIndex := new FileIndex();
    children := [];
    for d := 0 to duplicates
      invariant fileIndex.Valid() && fileIndex.issued == 0 && fileIndex.value == 0
      invariant |children| == d
      invariant forall i :: 0 <= i < d ==>
        fresh(children[i]) && children[i].fileIndex == fileIndex
        && children[i].pathTemplate == pathTemplate && children[i].maximumBytesPerFile == maximumBytesPerFile
        && children[i].rotate == rotate && children[i].totalBytesWritten == 0 && children[i].ops == []
      invariant forall i, j :: 0 <= i < j < d ==> children[i] != children[j]
    {
      var child := new Child(pathTemplate, maximumBytesPerFile, rotate, fileIndex);
      children := children + [child];
    }
  }
}
