/**
 * The line rewrite at the heart of `UpdateHostsFile`: every line of the hosts
 * file that carries the application's marker is dropped, every other line is
 * kept in order, and two loopback lines are appended per blocked website.
 * Reading and writing the file and flushing the resolver cache are not modelled;
 * the file is its sequence of lines.
 */
module Hosts {
  import opened Framework

  /** The comment that tags every line the application writes. */
  const Marker: string := "# Blocked by WebsiteAndAppBlocker"

  /** `$"127.0.0.1 {website} # Blocked by WebsiteAndAppBlocker"` */
  function BareLine(website: string): (line: string) {
    "127.0.0.1 " + website + " " + Marker
  }

  /** `$"127.0.0.1 www.{website} # Blocked by WebsiteAndAppBlocker"` */
  function WwwLine(website: string): (line: string) {
    "127.0.0.1 www." + website + " " + Marker
  }

  /** `line.Contains("# Blocked by WebsiteAndAppBlocker")` */
  predicate IsManaged(line: string) {
    ContainsSubstring(line, Marker)
  }

  /** Both generated lines carry the marker, whatever the website name. */
  lemma GeneratedLinesAreManaged(website: string)
    ensures IsManaged(BareLine(website)) && IsManaged(WwwLine(website))
  {
    EndsWithContains("127.0.0.1 " + website + " ", Marker);
    EndsWithContains("127.0.0.1 www." + website + " ", Marker);
  }

  /** The lines of `lines` that are managed (`managed`) or foreign (`!managed`), in their original order. */
  function Select(lines: seq<string>, managed: bool): (r: seq<string>)
    ensures |r| <= |lines|
    ensures forall i :: 0 <= i < |r| ==> IsManaged(r[i]) == managed
    ensures forall i :: 0 <= i < |r| ==> r[i] in lines
  {
    if lines == [] then []
    else
      var last := lines[|lines| - 1];
      Select(lines[..|lines| - 1], managed) + (if IsManaged(last) == managed then [last] else [])
  }

  /** The lines the rewrite keeps: those without the marker. */
  function ForeignLines(lines: seq<string>): (r: seq<string>)
    ensures |r| <= |lines|
    ensures forall i :: 0 <= i < |r| ==> !IsManaged(r[i]) && r[i] in lines
  {
    Select(lines, false)
  }

  /** The two loopback lines per website, in list order. */
  function ManagedLines(websites: seq<string>): (r: seq<string>)
    ensures |r| == 2 * |websites|
  {
    if websites == [] then []
    else
      var w := websites[|websites| - 1];
      ManagedLines(websites[..|websites| - 1]) + [BareLine(w), WwwLine(w)]
  }

  /** The new content of the hosts file. */
  function RewriteHosts(originalLines: seq<string>, websites: seq<string>): (r: seq<string>) {
    ForeignLines(originalLines) + ManagedLines(websites)
  }

  /**
   * `UpdateHostsFile` between the read and the write: the first loop keeps the
   * lines without the marker, the second appends two lines per website.
   */
  method UpdateHostsLines(originalLines: seq<string>, websites: seq<string>) returns (newLines: seq<string>)
    ensures newLines == RewriteHosts(originalLines, websites)
  {
    newLines := [];
    for i := 0 to |originalLines|
      invariant newLines == ForeignLines(originalLines[..i])
    {
      var line := originalLines[i];
      if !ContainsSubstring(line, Marker) {
        newLines := newLines + [line];
      }
      assert originalLines[..i + 1][..i] == originalLines[..i];
    }
    assert originalLines[..|originalLines|] == originalLines;
    for j := 0 to |websites|
      invariant newLines == ForeignLines(originalLines) + ManagedLines(websites[..j])
    {
      var website := websites[j];
      newLines := newLines + [BareLine(website)];
      newLines := newLines + [WwwLine(website)];
      assert websites[..j + 1][..j] == websites[..j];
    }
    assert websites[..|websites|] == websites;
  }

  // ---------------------------------------------------------------------------
  // Properties of the rewrite

  /** Selecting from a concatenation selects from each part. */
  lemma {:induction false} SelectAppend(a: seq<string>, b: seq<string>, managed: bool)
    ensures Select(a + b, managed) == Select(a, managed) + Select(b, managed)
  {
    if b == [] {
      assert a + b == a;
    } else {
      var ab := a + b;
      assert ab[..|ab| - 1] == a + b[..|b| - 1];
      assert ab[|ab| - 1] == b[|b| - 1];
      SelectAppend(a, b[..|b| - 1], managed);
    }
  }

  /** Selecting lines that all have the selected kind keeps them all, and selecting the other kind keeps none. */
  lemma SelectUniform(lines: seq<string>, managed: bool)
    requires forall i :: 0 <= i < |lines| ==> IsManaged(lines[i]) == managed
    ensures Select(lines, managed) == lines
    ensures Select(lines, !managed) == []
  {
    SelectKeepsUniform(lines, managed);
    SelectDropsUniform(lines, managed);
  }

  lemma {:induction false} SelectKeepsUniform(lines: seq<string>, managed: bool)
    requires forall i :: 0 <= i < |lines| ==> IsManaged(lines[i]) == managed
    ensures Select(lines, managed) == lines
  {
    if lines != [] {
      var init, last := lines[..|lines| - 1], lines[|lines| - 1];
      SelectKeepsUniform(init, managed);
      assert lines == init + [last];
    }
  }

  lemma {:induction false} SelectDropsUniform(lines: seq<string>, managed: bool)
    requires forall i :: 0 <= i < |lines| ==> IsManaged(lines[i]) == managed
    ensures Select(lines, !managed) == []
  {
    if lines != [] {
      SelectDropsUniform(lines[..|lines| - 1], managed);
    }
  }

  /** The generated lines are laid out pairwise in list order: bare name, then `www.` name. */
  lemma {:induction false} ManagedLinesAt(websites: seq<string>, k: int)
    requires 0 <= k < |websites|
    ensures ManagedLines(websites)[2 * k] == BareLine(websites[k])
    ensures ManagedLines(websites)[2 * k + 1] == WwwLine(websites[k])
  {
    if k < |websites| - 1 {
      ManagedLinesAt(websites[..|websites| - 1], k);
    }
  }

  /** Every generated line carries the marker. */
  lemma ManagedLinesAllManaged(websites: seq<string>)
    ensures forall i :: 0 <= i < |ManagedLines(websites)| ==> IsManaged(ManagedLines(websites)[i])
  {
    var m := ManagedLines(websites);
    forall i | 0 <= i < |m|
      ensures IsManaged(m[i])
    {
      ManagedLinesAt(websites, i / 2);
      GeneratedLinesAreManaged(websites[i / 2]);
    }
  }

  /**
   * The new file is the foreign lines followed by exactly two lines per website:
   * `127.0.0.1 w # ...` and then `127.0.0.1 www.w # ...`, in list order.
   */
  lemma RewriteLayout(originalLines: seq<string>, websites: seq<string>, k: int)
    requires 0 <= k < |websites|
    ensures var r, f := RewriteHosts(originalLines, websites), ForeignLines(originalLines);
      && |f| + 2 * k + 1 < |r|
      && r[|f| + 2 * k] == BareLine(websites[k])
      && r[|f| + 2 * k + 1] == WwwLine(websites[k])
  {
    ManagedLinesAt(websites, k);
  }

  /** For any website list, the empty one included: the foreign lines first, then two lines per website. */
  lemma RewriteShape(originalLines: seq<string>, websites: seq<string>)
    ensures var r, f := RewriteHosts(originalLines, websites), ForeignLines(originalLines);
      && |r| == |f| + 2 * |websites|
      && r[..|f|] == f
  {
    var f := ForeignLines(originalLines);
    assert RewriteHosts(originalLines, websites)[..|f|] == f;
  }

  /** Foreign lines come out unchanged and in order; the managed lines are exactly those of the website list. */
  lemma RewritePartition(originalLines: seq<string>, websites: seq<string>)
    ensures ForeignLines(RewriteHosts(originalLines, websites)) == ForeignLines(originalLines)
    ensures Select(RewriteHosts(originalLines, websites), true) == ManagedLines(websites)
  {
    var f, m := ForeignLines(originalLines), ManagedLines(websites);
    SelectAppend(f, m, false);
    SelectAppend(f, m, true);
    SelectUniform(f, false);
    ManagedLinesAllManaged(websites);
    SelectUniform(m, true);
  }

  /** Rewriting the rewritten file with the same website list changes nothing. */
  lemma RewriteIdempotent(originalLines: seq<string>, websites: seq<string>)
    ensures RewriteHosts(RewriteHosts(originalLines, websites), websites) == RewriteHosts(originalLines, websites)
  {
    RewritePartition(originalLines, websites);
  }

  /** A line without the marker occurs in the new file exactly as often as in the old one. */
  lemma {:induction false} SelectCount(lines: seq<string>, x: string)
    requires !IsManaged(x)
    ensures multiset(ForeignLines(lines))[x] == multiset(lines)[x]
  {
    if lines != [] {
      var init := lines[..|lines| - 1];
      SelectCount(init, x);
      assert lines == init + [lines[|lines| - 1]];
    }
  }

  /** No foreign line is lost or duplicated, and no managed line survives except the regenerated ones. */
  lemma RewriteCounts(originalLines: seq<string>, websites: seq<string>, x: string)
    ensures !IsManaged(x) ==> multiset(RewriteHosts(originalLines, websites))[x] == multiset(originalLines)[x]
    ensures IsManaged(x) ==> multiset(RewriteHosts(originalLines, websites))[x] == multiset(ManagedLines(websites))[x]
  {
    var f, m := ForeignLines(originalLines), ManagedLines(websites);
    if !IsManaged(x) {
      SelectCount(originalLines, x);
      ManagedLinesAllManaged(websites);
      assert x !in m;
    } else {
      assert x !in f;
    }
  }
}
