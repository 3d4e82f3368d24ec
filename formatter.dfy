/** `createResults` (osstatus.py:89-107): turns the decoded lookup records into
    display lines. Each record gives a header line, with the name column padded
    to the longest name, and, when verbose, its wrapped description. */
module Formatter {
  import opened Wrappers
  import Terminal

  /** One decoded record of the lookup service; any field may be null. */
  datatype Record = Record(
    name: Option<string>,
    description: Option<string>,
    framework: Option<string>,
    headerFile: Option<string>)

  /** `textwrap.fill(text, initial_indent=..., subsequent_indent=...)`, a library
      routine whose word wrapping is not part of this model: the formatter takes
      it as a parameter and every result below holds whatever it does. */
  type Wrap = (string, string, string) -> string

  /** The indent of every line of a wrapped description. */
  const Indent: string := "    "

  const NameColor: string := "red"
  const FrameworkColor: string := "cyan"
  const HeaderColor: string := "bold"

  function Max(a: nat, b: nat): nat { if a < b then b else a }

  function NameOf(r: Record): string { Terminal.Ustr(r.name) }

  /** The width of the name column: the length of the longest name, and 0 when
      there are no records. */
  function LongestName(results: seq<Record>): (w: nat)
    ensures forall i :: 0 <= i < |results| ==> |NameOf(results[i])| <= w
    ensures results == [] ==> w == 0
    ensures results != [] ==> exists i :: 0 <= i < |results| && |NameOf(results[i])| == w
    decreases |results|
  {
    if results == [] then 0
    else Max(LongestName(results[..|results| - 1]), |NameOf(results[|results| - 1])|)
  }

  /** `n` spaces. */
  function Spaces(n: nat): (s: string)
    ensures |s| == n
    ensures forall i :: 0 <= i < n ==> s[i] == ' '
  {
    if n == 0 then [] else [' '] + Spaces(n - 1)
  }

  /** `'{message: <{width}}'.format(message=s, width=width)`: `s` followed by
      spaces up to `width`; a longer `s` is kept whole. */
  function PadRight(s: string, width: nat): (r: string)
    ensures |r| == Max(|s|, width)
    ensures r[..|s|] == s
    ensures forall i :: |s| <= i < |r| ==> r[i] == ' '
  {
    if |s| < width then s + Spaces(width - |s|) else s
  }

  /** `cstr` with a colour from the table, which never fails there; the lemma
      PaintIsCstr ties the two together. The formatter uses this plain string
      rather than Cstr's Result so that its proofs never have to unfold the
      colour table. */
  function Paint(msg: string, color: string, xcode: bool): string
    requires color in Terminal.Palette
  {
    if xcode then msg else Terminal.Palette[color] + msg + Terminal.Reset
  }

  /** For every colour in the table, cstr succeeds and gives what Paint gives. */
  lemma PaintIsCstr(msg: string, color: string, xcode: bool)
    requires color in Terminal.Palette
    ensures Terminal.Cstr(msg, color, xcode) == Ok(Paint(msg, color, xcode))
  {
  }

  /** The header line of one record: padded name, a space and the framework,
      then the header file in parentheses. */
  function HeaderLine(r: Record, width: nat, xcode: bool): string
  {
    Paint(PadRight(NameOf(r), width), NameColor, xcode)
    + Paint(" " + Terminal.Ustr(r.framework), FrameworkColor, xcode)
    + Paint("(" + Terminal.Ustr(r.headerFile) + ")", HeaderColor, xcode)
  }

  /** The text of a header line: with colours off, the padded name, a space,
      the framework and the parenthesised header file; with colours on, the
      same three segments, each between its escape code and a reset. */
  lemma HeaderLineText(r: Record, width: nat, xcode: bool)
    ensures xcode ==> HeaderLine(r, width, xcode) == PadRight(NameOf(r), width) + " " + Terminal.Ustr(r.framework)
                             + "(" + Terminal.Ustr(r.headerFile) + ")"
    ensures !xcode ==> HeaderLine(r, width, xcode) == Terminal.Palette[NameColor] + PadRight(NameOf(r), width) + Terminal.Reset
                              + Terminal.Palette[FrameworkColor] + " " + Terminal.Ustr(r.framework) + Terminal.Reset
                              + Terminal.Palette[HeaderColor] + "(" + Terminal.Ustr(r.headerFile) + ")" + Terminal.Reset
  {
  }

  /** Whether a record contributes a description element. */
  predicate ShowsDescription(r: Record, verbose: bool)
  {
    verbose && |Terminal.Ustr(r.description)| != 0
  }

  /** The lines of one record: its header line, then its wrapped description
      when it shows one. */
  function RecordLines(r: Record, width: nat, verbose: bool, xcode: bool, wrap: Wrap): (ls: seq<string>)
    ensures |ls| == if ShowsDescription(r, verbose) then 2 else 1
    ensures ls[0] == HeaderLine(r, width, xcode)
    ensures |ls| == 2 ==> ls[1] == wrap(Terminal.Ustr(r.description), Indent, Indent)
  {
    [HeaderLine(r, width, xcode)]
    + if ShowsDescription(r, verbose) then [wrap(Terminal.Ustr(r.description), Indent, Indent)] else []
  }

  /** The per-record rendering createResults applies, for a given column
      width and flags: RecordLines with the flags fixed, named as a value so
      that the generic lemmas about Join can take it as their `render`. */
  function Renderer(width: nat, verbose: bool, xcode: bool, wrap: Wrap): Record -> seq<string>
  {
    r => RecordLines(r, width, verbose, xcode, wrap)
  }

  /** The blocks `render` gives for the records, one after another in input
      order. */
  function Join(results: seq<Record>, render: Record -> seq<string>): seq<string>
    decreases |results|
  {
    if results == [] then []
    else Join(results[..|results| - 1], render) + render(results[|results| - 1])
  }

  /** What createResults returns: each record's lines, in input order, with
      the name column as wide as the longest name. */
  function Format(results: seq<Record>, verbose: bool, xcode: bool, wrap: Wrap): seq<string>
  {
    Join(results, Renderer(LongestName(results), verbose, xcode, wrap))
  }

  /** The number of records that show a description. */
  function DescriptionCount(results: seq<Record>, verbose: bool): (n: nat)
    ensures n <= |results|
    ensures !verbose ==> n == 0
    decreases |results|
  {
    if results == [] then 0
    else DescriptionCount(results[..|results| - 1], verbose)
         + if ShowsDescription(results[|results| - 1], verbose) then 1 else 0
  }

  /** createResults: the first loop finds the width of the name column, the
      second appends each record's lines in input order. */
  method CreateResults(results: seq<Record>, verbose: bool, xcode: bool, wrap: Wrap)
    returns (lines: seq<string>)
    ensures lines == Format(results, verbose, xcode, wrap)
  {
    var longestNameLength := LongestNameLength(results);

    ghost var render := Renderer(longestNameLength, verbose, xcode, wrap);
    lines := [];
    for i := 0 to |results|
      invariant lines == Join(results[..i], render)
    {
      lines := AppendRecord(lines, results[i], longestNameLength, verbose, xcode, wrap);
      JoinStep(results, i, render);
    }
    assert results[..|results|] == results;
  }

  /** createResults' first loop: the running maximum of the name lengths. */
  method LongestNameLength(results: seq<Record>) returns (longestNameLength: nat)
    ensures longestNameLength == LongestName(results)
  {
    longestNameLength := 0;
    for i := 0 to |results|
      invariant longestNameLength == LongestName(results[..i])
    {
      var name := Terminal.Ustr(results[i].name);
      longestNameLength := Max(longestNameLength, |name|);
      assert results[..i + 1][..i] == results[..i];
    }
    assert results[..|results|] == results;
  }

  /** The body of createResults' second loop: appends the header line of one
      record and, when verbose and the description is not empty, the wrapped
      description. */
  method AppendRecord(lines: seq<string>, r: Record, width: nat, verbose: bool, xcode: bool, wrap: Wrap)
    returns (out: seq<string>)
    ensures out == lines + Renderer(width, verbose, xcode, wrap)(r)
  {
    var name := Terminal.Ustr(r.name);
    var desc := Terminal.Ustr(r.description);
    var fwk := Terminal.Ustr(r.framework);
    var header := Terminal.Ustr(r.headerFile);

    var formattedName := Paint(PadRight(name, width), NameColor, xcode);
    var formattedSource := Paint(" " + fwk, FrameworkColor, xcode) + Paint("(" + header + ")", HeaderColor, xcode);
    ghost var extra := if verbose && |desc| != 0 then [wrap(desc, Indent, Indent)] else [];
    assert Renderer(width, verbose, xcode, wrap)(r) == [formattedName + formattedSource] + extra by {
      RenderRecord(r, width, verbose, xcode, wrap);
    }
    out := lines + [formattedName + formattedSource];
    if verbose && |desc| != 0 {
      out := out + [wrap(desc, Indent, Indent)];
    }
    assert out == lines + ([formattedName + formattedSource] + extra);
  }

  /** The block the renderer gives for one record, spelled out as
      createResults builds it. */
  lemma RenderRecord(r: Record, width: nat, verbose: bool, xcode: bool, wrap: Wrap)
    ensures Renderer(width, verbose, xcode, wrap)(r)
            == [Paint(PadRight(Terminal.Ustr(r.name), width), NameColor, xcode)
                + (Paint(" " + Terminal.Ustr(r.framework), FrameworkColor, xcode)
                   + Paint("(" + Terminal.Ustr(r.headerFile) + ")", HeaderColor, xcode))]
               + (if verbose && |Terminal.Ustr(r.description)| != 0
                  then [wrap(Terminal.Ustr(r.description), Indent, Indent)] else [])
  {
    var header := HeaderLine(r, width, xcode);
    assert Renderer(width, verbose, xcode, wrap)(r) == RecordLines(r, width, verbose, xcode, wrap);
    assert header == Paint(PadRight(Terminal.Ustr(r.name), width), NameColor, xcode)
                     + (Paint(" " + Terminal.Ustr(r.framework), FrameworkColor, xcode)
                        + Paint("(" + Terminal.Ustr(r.headerFile) + ")", HeaderColor, xcode));
  }

  /** Joining one more record appends its block. */
  lemma JoinStep(results: seq<Record>, i: nat, render: Record -> seq<string>)
    requires i < |results|
    ensures Join(results[..i + 1], render) == Join(results[..i], render) + render(results[i])
  {
    assert results[..i + 1][..i] == results[..i];
  }

  /** Joining distributes over concatenation of record sequences. */
  lemma {:induction false} JoinAppend(a: seq<Record>, b: seq<Record>, render: Record -> seq<string>)
    ensures Join(a + b, render) == Join(a, render) + Join(b, render)
    decreases |b|
  {
    if b == [] {
      assert a + b == a;
    } else {
      var b' := b[..|b| - 1];
      assert (a + b)[..|a + b| - 1] == a + b';
      JoinAppend(a, b', render);
    }
  }

  /** The block of record `k` sits, unchanged and contiguous, right after the
      blocks of the records before it. */
  lemma {:induction false} JoinAt(results: seq<Record>, k: nat, render: Record -> seq<string>)
    requires k < |results|
    ensures var at := |Join(results[..k], render)|;
            at + |render(results[k])| <= |Join(results, render)| &&
            Join(results, render)[at..at + |render(results[k])|] == render(results[k])
  {
    var before := results[..k];
    var rest := results[k + 1..];
    assert results == before + [results[k]] + rest;
    JoinAppend(before + [results[k]], rest, render);
    JoinAppend(before, [results[k]], render);
    assert [results[k]][..0] == [];
  }

  /** When every record's block is its header line plus the description it
      shows, the joined lines number one per record plus one per description. */
  lemma {:induction false} JoinCount(results: seq<Record>, verbose: bool, render: Record -> seq<string>)
    requires forall r :: |render(r)| == if ShowsDescription(r, verbose) then 2 else 1
    ensures |Join(results, render)| == |results| + DescriptionCount(results, verbose)
    decreases |results|
  {
    if results != [] {
      JoinCount(results[..|results| - 1], verbose, render);
    }
  }

  /** The renderer's block for a record: its header line, then the wrapped
      description when it shows one: RecordLines' ensures restated for the
      lambda application, the form in which Join's lemmas see a block. */
  lemma RenderedBlock(width: nat, verbose: bool, xcode: bool, wrap: Wrap, r: Record)
    ensures var block := Renderer(width, verbose, xcode, wrap)(r);
            |block| == (if ShowsDescription(r, verbose) then 2 else 1) &&
            block[0] == HeaderLine(r, width, xcode) &&
            (|block| == 2 ==> block[1] == wrap(Terminal.Ustr(r.description), Indent, Indent))
  {
    assert Renderer(width, verbose, xcode, wrap)(r) == RecordLines(r, width, verbose, xcode, wrap);
  }

  /** Every block of the renderer has one line, or two when it shows a
      description. */
  lemma RenderedSizes(width: nat, verbose: bool, xcode: bool, wrap: Wrap)
    ensures forall r :: |Renderer(width, verbose, xcode, wrap)(r)| == if ShowsDescription(r, verbose) then 2 else 1
  {
    forall r ensures |Renderer(width, verbose, xcode, wrap)(r)| == if ShowsDescription(r, verbose) then 2 else 1 {
      RenderedBlock(width, verbose, xcode, wrap, r);
    }
  }

  /** Every record gives its header line and, when it shows one, its
      description, and nothing else: between one and two lines per record,
      exactly one when not verbose. */
  lemma LineCount(results: seq<Record>, verbose: bool, xcode: bool, wrap: Wrap)
    ensures |Format(results, verbose, xcode, wrap)| == |results| + DescriptionCount(results, verbose)
    ensures |results| <= |Format(results, verbose, xcode, wrap)| <= 2 * |results|
    ensures !verbose ==> |Format(results, verbose, xcode, wrap)| == |results|
  {
    RenderedSizes(LongestName(results), verbose, xcode, wrap);
    JoinCount(results, verbose, Renderer(LongestName(results), verbose, xcode, wrap));
  }

  /** Record `k`'s header line is line `k + d`, where `d` is the number of
      descriptions shown for the records before it; its description, when it
      shows one, is the very next line. */
  lemma RecordPlacement(results: seq<Record>, k: nat, verbose: bool, xcode: bool, wrap: Wrap)
    requires k < |results|
    ensures var all := Format(results, verbose, xcode, wrap);
            var at := k + DescriptionCount(results[..k], verbose);
            at < |all| && all[at] == HeaderLine(results[k], LongestName(results), xcode) &&
            (ShowsDescription(results[k], verbose) ==>
               at + 1 < |all| && all[at + 1] == wrap(Terminal.Ustr(results[k].description), Indent, Indent))
  {
    var width := LongestName(results);
    var render := Renderer(width, verbose, xcode, wrap);
    RenderedSizes(width, verbose, xcode, wrap);
    JoinPlacement(results, k, verbose, render);
    RenderedBlock(width, verbose, xcode, wrap, results[k]);
  }

  /** With blocks of one line, or two for a record showing a description,
      record `k`'s block starts at line `k + d`, `d` being the number of
      descriptions shown before it. */
  lemma JoinPlacement(results: seq<Record>, k: nat, verbose: bool, render: Record -> seq<string>)
    requires k < |results|
    requires forall r :: |render(r)| == if ShowsDescription(r, verbose) then 2 else 1
    ensures var at := k + DescriptionCount(results[..k], verbose);
            var block := render(results[k]);
            at + |block| <= |Join(results, render)| &&
            (forall j :: 0 <= j < |block| ==> Join(results, render)[at + j] == block[j])
  {
    JoinAt(results, k, render);
    JoinCount(results[..k], verbose, render);
    var at := |Join(results[..k], render)|;
    var block := render(results[k]);
    forall j | 0 <= j < |block| ensures Join(results, render)[at + j] == block[j] {
      assert Join(results, render)[at..at + |block|][j] == block[j];
    }
  }

  /** Without verbose, line `i` is the header line of record `i`: one line per
      record, in input order. */
  lemma TerseLines(results: seq<Record>, xcode: bool, wrap: Wrap)
    ensures |Format(results, false, xcode, wrap)| == |results|
    ensures forall i :: 0 <= i < |results| ==>
              Format(results, false, xcode, wrap)[i] == HeaderLine(results[i], LongestName(results), xcode)
  {
    LineCount(results, false, xcode, wrap);
    forall i | 0 <= i < |results|
      ensures Format(results, false, xcode, wrap)[i] == HeaderLine(results[i], LongestName(results), xcode)
    {
      RecordPlacement(results, i, false, xcode, wrap);
    }
  }

  /** No records, no lines, verbose or not. */
  lemma FormatEmpty(verbose: bool, xcode: bool, wrap: Wrap)
    ensures Format([], verbose, xcode, wrap) == []
  {
  }

  /** With colours off, every header line starts with its name padded to the
      column width, and its framework starts one space after that column, in
      the same place on every line. */
  lemma {:induction false} FrameworkColumnAligned(results: seq<Record>, i: nat)
    requires i < |results|
    ensures var w := LongestName(results);
            var line := HeaderLine(results[i], w, true);
            |line| > w && line[..|NameOf(results[i])|] == NameOf(results[i]) &&
            (forall j :: |NameOf(results[i])| <= j < w ==> line[j] == ' ') &&
            line[w] == ' ' &&
            line[w + 1..] == Terminal.Ustr(results[i].framework) + "(" + Terminal.Ustr(results[i].headerFile) + ")"
  {
    var w := LongestName(results);
    var name := NameOf(results[i]);
    var p := PadRight(name, w);
    assert |p| == w;
    var tail := Terminal.Ustr(results[i].framework) + "(" + Terminal.Ustr(results[i].headerFile) + ")";
    var line := HeaderLine(results[i], w, true);
    assert line == p + " " + tail;
    assert line[..|name|] == p[..|name|];
    assert line[w + 1..] == tail;
  }

  /** A single record without a description, colours off: one line holding
      the name, the framework and the parenthesised header file. */
  lemma {:induction false} TerseExample(wrap: Wrap)
    ensures Format([Record(Some("err"), Some(""), Some("CoreFoo"), Some("CoreFoo.h"))], false, true, wrap)
            == ["err CoreFoo(CoreFoo.h)"]
  {
    var r := Record(Some("err"), Some(""), Some("CoreFoo"), Some("CoreFoo.h"));
    assert [r][..0] == [];
    assert LongestName([r]) == 3;
    assert PadRight("err", 3) == "err";
    HeaderLineText(r, 3, true);
    TerseLines([r], true, wrap);
    var f := Format([r], false, true, wrap);
    assert f[0] == HeaderLine(r, 3, true) == "err" + " " + "CoreFoo" + "(" + "CoreFoo.h" + ")"
                                         == "err CoreFoo(CoreFoo.h)";
    assert f == [f[0]];
  }

  /** The same record with a description, verbose: the header line, then the
      description wrapped with a four-space indent. */
  lemma {:induction false} VerboseExample(wrap: Wrap)
    ensures Format([Record(Some("err"), Some("Something failed."), Some("CoreFoo"), Some("CoreFoo.h"))], true, true, wrap)
            == ["err CoreFoo(CoreFoo.h)", wrap("Something failed.", "    ", "    ")]
  {
    var r := Record(Some("err"), Some("Something failed."), Some("CoreFoo"), Some("CoreFoo.h"));
    assert [r][..0] == [];
    assert LongestName([r]) == 3;
    assert PadRight("err", 3) == "err";
    HeaderLineText(r, 3, true);
    LineCount([r], true, true, wrap);
    RecordPlacement([r], 0, true, true, wrap);
    var f := Format([r], true, true, wrap);
    assert DescriptionCount([r][..0], true) == 0;
    assert f[0] == HeaderLine(r, 3, true) == "err" + " " + "CoreFoo" + "(" + "CoreFoo.h" + ")"
                                         == "err CoreFoo(CoreFoo.h)";
    assert f[1] == wrap("Something failed.", Indent, Indent);
    assert f == [f[0], f[1]];
  }
}
