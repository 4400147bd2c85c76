/** `create_rust_project` as a text transform (src/code_assistant.py): the
    generated Rust code is split into lines; `//` comments that look like
    Cargo dependencies are lifted into a manifest and removed from the source
    written to src/main.rs. Writing the two files is not part of this model. */
module RustProject {
  import opened Wrappers
  import opened Text

  const ManifestHeader: string :=
    "[package]\nname = \"test_project\"\nversion = \"0.1.0\"\nedition = \"2021\"\n\n[dependencies]\n"

  predicate IsComment(line: string) {
    StartsWith(Strip(line), "//")
  }

  /** A line the cleaning step drops: a `//` comment carrying `=` or `[`. */
  predicate IsDependencyComment(line: string) {
    IsComment(line) && ('=' in line || '[' in line)
  }

  /** A line the manifest scan looks at: a `//` comment carrying `=` or the
      word "version" in any casing. */
  predicate IsManifestCandidate(line: string) {
    IsComment(line) && ('=' in line || Contains(Lower(line), "version"))
  }

  /** The comment text after `//`, stripped. */
  function CommentBody(line: string): string
    requires IsComment(line)
  {
    Strip(Strip(line)[2..])
  }

  /** The manifest line a source line contributes, if any: the comment body of
      a candidate line, when that body holds `=` and is not a table header. */
  function ManifestEntry(line: string): (e: Option<string>)
    ensures e.Some? <==> IsManifestCandidate(line) && '=' in CommentBody(line) && !StartsWith(CommentBody(line), "[")
    ensures e.Some? ==> IsComment(line) && e.value == CommentBody(line)
    ensures e.Some? ==> '=' in e.value && !StartsWith(e.value, "[")
  {
    if IsManifestCandidate(line) && !StartsWith(CommentBody(line), "[") && '=' in CommentBody(line)
    then Some(CommentBody(line))
    else None
  }

  /** The manifest lines contributed by `lines`, in order. */
  function Entries(lines: seq<string>): seq<string> {
    if lines == [] then []
    else
      match ManifestEntry(lines[0])
      case Some(e) => [e] + Entries(lines[1..])
      case None => Entries(lines[1..])
  }

  /** Each of `ls` followed by a newline. */
  function Terminated(ls: seq<string>): string {
    if ls == [] then "" else ls[0] + "\n" + Terminated(ls[1..])
  }

  function Manifest(lines: seq<string>): string {
    ManifestHeader + Terminated(Entries(lines))
  }

  /** The lines kept in src/main.rs. */
  function CleanLines(lines: seq<string>): (r: seq<string>)
    ensures IsSubsequence(r, lines)
    ensures forall i :: 0 <= i < |r| ==> !IsDependencyComment(r[i])
  {
    if lines == [] then []
    else if IsDependencyComment(lines[0]) then CleanLines(lines[1..])
    else [lines[0]] + CleanLines(lines[1..])
  }

  datatype Project = Project(manifest: string, source: string)

  /** The manifest and the cleaned source made from generated code. */
  function CreateProject(code: string): (p: Project)
    ensures StartsWith(p.manifest, ManifestHeader)
  {
    var lines := SplitOn(code, '\n');
    assert Manifest(lines)[..|ManifestHeader|] == ManifestHeader;
    Project(Manifest(lines), Join(CleanLines(lines), "\n"))
  }

  /** The cleaned source keeps every other line as often as it occurs and drops
      every dependency comment; with the subsequence property of `CleanLines`
      this makes it the original lines, in order, minus those comments. */
  lemma {:induction false} CleanLinesCount(lines: seq<string>, l: string)
    ensures multiset(CleanLines(lines))[l] == if IsDependencyComment(l) then 0 else multiset(lines)[l]
  {
    if lines != [] {
      CleanLinesCount(lines[1..], l);
      assert lines == [lines[0]] + lines[1..];
      assert multiset(lines) == multiset{lines[0]} + multiset(lines[1..]);
    }
  }

  /** Characters of a stripped text come from the text. */
  lemma StripKeeps(s: string, c: char)
    requires c in Strip(s)
    ensures c in s
  {
    var t := StripStart(s);
    var r := StripEnd(t);
    var i :| 0 <= i < |r| && r[i] == c;
    assert t[i] == c;
    assert s[|s| - |t| + i] == c;
  }

  /** A line that feeds the manifest is always removed from the source. */
  lemma EntryLineIsRemoved(line: string)
    requires ManifestEntry(line).Some?
    ensures IsDependencyComment(line)
  {
    var body := CommentBody(line);
    assert '=' in body;
    StripKeeps(Strip(line)[2..], '=');
    assert '=' in Strip(line);
    StripKeeps(line, '=');
  }

  /** Every manifest entry is the comment body of a line removed from the
      source. */
  lemma {:induction false} EntriesFromRemovedLines(lines: seq<string>)
    ensures forall e :: e in Entries(lines) ==>
              exists i :: 0 <= i < |lines| && IsDependencyComment(lines[i]) && ManifestEntry(lines[i]) == Some(e)
  {
    if lines != [] {
      EntriesFromRemovedLines(lines[1..]);
      forall e | e in Entries(lines)
        ensures exists i :: 0 <= i < |lines| && IsDependencyComment(lines[i]) && ManifestEntry(lines[i]) == Some(e)
      {
        EntryFromRemovedLine(lines, e);
      }
    }
  }

  lemma EntryFromRemovedLine(lines: seq<string>, e: string)
    requires lines != [] && e in Entries(lines)
    requires forall e :: e in Entries(lines[1..]) ==>
               exists i :: 0 <= i < |lines[1..]| && IsDependencyComment(lines[1..][i]) && ManifestEntry(lines[1..][i]) == Some(e)
    ensures exists i :: 0 <= i < |lines| && IsDependencyComment(lines[i]) && ManifestEntry(lines[i]) == Some(e)
  {
    if ManifestEntry(lines[0]) == Some(e) {
      EntryLineIsRemoved(lines[0]);
      assert IsDependencyComment(lines[0]) && ManifestEntry(lines[0]) == Some(e);
    } else {
      assert e in Entries(lines[1..]);
      var j :| 0 <= j < |lines[1..]| && IsDependencyComment(lines[1..][j]) && ManifestEntry(lines[1..][j]) == Some(e);
      ShiftedWitness(lines, j, e);
    }
  }

  lemma ShiftedWitness(lines: seq<string>, j: nat, e: string)
    requires j + 1 < |lines|
    requires IsDependencyComment(lines[1..][j]) && ManifestEntry(lines[1..][j]) == Some(e)
    ensures exists i :: 0 <= i < |lines| && IsDependencyComment(lines[i]) && ManifestEntry(lines[i]) == Some(e)
  {
    var line := lines[1..][j];
    assert line == lines[j + 1];
  }

  /** There are no more entries than removed lines. */
  lemma {:induction false} EntriesBound(lines: seq<string>)
    ensures |Entries(lines)| <= |lines| - |CleanLines(lines)|
  {
    if lines != [] {
      EntriesBound(lines[1..]);
      if ManifestEntry(lines[0]).Some? {
        EntryLineIsRemoved(lines[0]);
      }
    }
  }

  lemma {:induction false} TerminatedAsJoin(ls: seq<string>)
    ensures Terminated(ls) == Join(ls + [""], "\n")
  {
    if ls != [] {
      TerminatedAsJoin(ls[1..]);
      assert (ls + [""])[1..] == ls[1..] + [""];
    }
  }

  /** A newline-free text is kept: the pieces of a line are within the line. */
  lemma EntryHasNoNewline(line: string)
    requires '\n' !in line && ManifestEntry(line).Some?
    ensures '\n' !in ManifestEntry(line).value
  {
    if '\n' in CommentBody(line) {
      StripKeeps(Strip(line)[2..], '\n');
      StripKeeps(line, '\n');
    }
  }

  /** Manifest entries made from newline-free lines are newline-free. */
  lemma EntriesHaveNoNewline(lines: seq<string>)
    requires forall i :: 0 <= i < |lines| ==> '\n' !in lines[i]
    ensures forall i :: 0 <= i < |Entries(lines)| ==> '\n' !in Entries(lines)[i]
  {
    EntriesFromRemovedLines(lines);
    forall i | 0 <= i < |Entries(lines)| ensures '\n' !in Entries(lines)[i] {
      var e := Entries(lines)[i];
      assert e in Entries(lines);
      var j :| 0 <= j < |lines| && IsDependencyComment(lines[j]) && ManifestEntry(lines[j]) == Some(e);
      EntryHasNoNewline(lines[j]);
    }
  }

  /** Reading the manifest back: after the header, its lines are the entries,
      each closed by a newline. */
  lemma ManifestLines(code: string)
    ensures var p := CreateProject(code);
            SplitOn(p.manifest[|ManifestHeader|..], '\n') == Entries(SplitOn(code, '\n')) + [""]
  {
    var es := Entries(SplitOn(code, '\n'));
    EntriesHaveNoNewline(SplitOn(code, '\n'));
    TerminatedAsJoin(es);
    assert CreateProject(code).manifest[|ManifestHeader|..] == Terminated(es);
    assert forall i :: 0 <= i < |es + [""]| ==> '\n' !in (es + [""])[i] by {
      forall i | 0 <= i < |es + [""]| ensures '\n' !in (es + [""])[i] {
        if i < |es| {
          assert (es + [""])[i] == es[i];
        }
      }
    }
    SplitOnJoin(es + [""], '\n');
  }

  /** Reading the source back: its lines are the clean lines; when every line
      was removed the source is empty. */
  lemma SourceLines(code: string)
    ensures var clean := CleanLines(SplitOn(code, '\n'));
            if clean == [] then CreateProject(code).source == ""
            else SplitOn(CreateProject(code).source, '\n') == clean
  {
    var lines := SplitOn(code, '\n');
    var clean := CleanLines(lines);
    if clean != [] {
      forall i | 0 <= i < |clean| ensures '\n' !in clean[i] {
        CleanLineInLines(lines, i);
      }
      SplitOnJoin(clean, '\n');
    }
  }

  lemma {:induction false} CleanLineInLines(lines: seq<string>, i: nat)
    requires i < |CleanLines(lines)|
    ensures CleanLines(lines)[i] in lines
  {
    if lines != [] && !IsDependencyComment(lines[0]) && i == 0 {
    } else if lines != [] {
      if IsDependencyComment(lines[0]) {
        CleanLineInLines(lines[1..], i);
      } else {
        CleanLineInLines(lines[1..], i - 1);
      }
      assert CleanLines(lines)[i] in lines[1..];
    }
  }
}
