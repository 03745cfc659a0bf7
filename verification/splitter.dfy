/**
  `split_and_upload_by_attorney`, partition logic only: the report's rows
  are split by Responsible Attorney (whitespace stripped) into one file per
  attorney of the fixed folder map who has rows, with its file name and the
  scratch path it is written to. The writing and the upload are I/O.
 */
module Splitter {
  import opened PyValues
  import opened Collections
  import opened Report

  /** `ATTORNEY_FOLDERS`, in its insertion order. */
  const AttorneyFolders: seq<(string, string)> := [
    ("Voorhees, Elizabeth", "Attorneys and Paralegals/Attorney Case Lists/Voorhees, Elizabeth"),
    ("Darling, Craig", "Attorneys and Paralegals/Attorney Case Lists/Darling, Craig"),
    ("Huang, Lily", "Attorneys and Paralegals/Attorney Case Lists/Huang, Lily"),
    ("Parker, Gabriella", "Attorneys and Paralegals/Attorney Case Lists/Parker, Gabriella")
  ]

  /** `_clean_attorney` applied to a row's Responsible Attorney. */
  function CleanRow(r: ReportRow): ReportRow {
    r.(attorney := Strip(r.attorney))
  }

  /** The master table after the cleaning `map`. */
  function CleanRows(rows: seq<ReportRow>): (c: seq<ReportRow>)
    ensures |c| == |rows|
    ensures forall i :: 0 <= i < |rows| ==> c[i] == CleanRow(rows[i])
  {
    seq(|rows|, i requires 0 <= i < |rows| => CleanRow(rows[i]))
  }

  function AttorneyIs(atty: string): ReportRow -> bool {
    (r: ReportRow) => r.attorney == atty
  }

  /** `df[df["Responsible Attorney"] == atty]` on the cleaned table. */
  function Partition(cleaned: seq<ReportRow>, atty: string): seq<ReportRow> {
    Filter(cleaned, AttorneyIs(atty))
  }

  /** `str.replace(",", "")`. */
  function DropCommas(s: string): string
    decreases |s|
  {
    if |s| == 0 then ""
    else (if s[0] == ',' then "" else [s[0]]) + DropCommas(s[1..])
  }

  /** `str.replace(" ", "_")`. */
  function Underscores(s: string): string
    decreases |s|
  {
    if |s| == 0 then ""
    else [if s[0] == ' ' then '_' else s[0]] + Underscores(s[1..])
  }

  /** The path stub: commas removed, then spaces turned into underscores. */
  function Stub(atty: string): string {
    Underscores(DropCommas(atty))
  }

  /** The stub has no comma and no space; it is no longer than the name. */
  lemma StubIsSafe(atty: string)
    ensures |Stub(atty)| <= |atty|
    ensures forall i :: 0 <= i < |Stub(atty)| ==> Stub(atty)[i] != ',' && Stub(atty)[i] != ' '
  {
    DropCommasDrops(atty);
    UnderscoresReplace(DropCommas(atty));
  }

  /** `replace(",", "")` leaves no comma and every other character in order. */
  lemma {:induction false} DropCommasDrops(s: string)
    ensures |DropCommas(s)| <= |s|
    ensures forall i :: 0 <= i < |DropCommas(s)| ==> DropCommas(s)[i] != ','
    ensures DropCommas(s) == Filter(s, NotComma)
    decreases |s|
  {
    if |s| > 0 {
      DropCommasDrops(s[1..]);
    }
  }

  function NotComma(c: char): bool { c != ',' }

  /** `replace(" ", "_")` changes exactly the spaces. */
  lemma {:induction false} UnderscoresReplace(s: string)
    ensures |Underscores(s)| == |s|
    ensures forall i :: 0 <= i < |s| ==> Underscores(s)[i] == (if s[i] == ' ' then '_' else s[i])
    decreases |s|
  {
    if |s| > 0 {
      UnderscoresReplace(s[1..]);
      var r := Underscores(s);
      assert r == [if s[0] == ' ' then '_' else s[0]] + Underscores(s[1..]);
      forall i | 1 <= i < |s|
        ensures r[i] == (if s[i] == ' ' then '_' else s[i])
      {
        assert r[i] == Underscores(s[1..])[i - 1];
        assert s[i] == s[1..][i - 1];
      }
    }
  }

  /** `f"{file_date}.TESTCase Review - {atty}.xlsx"`. */
  function FileName(fileDate: string, atty: string): string {
    fileDate + ".TESTCase Review - " + atty + ".xlsx"
  }

  /** `os.path.join("/tmp", f"case_review_{safe_stub}.xlsx")`. */
  function ScratchPath(atty: string): string {
    "/tmp/case_review_" + Stub(atty) + ".xlsx"
  }

  /** One file the splitter writes and uploads. */
  datatype SplitFile = SplitFile(attorney: string, folder: string, fileName: string, path: string, rows: seq<ReportRow>)

  /** The file of folder-map entry `(atty, folder)`. */
  function FileFor(entry: (string, string), cleaned: seq<ReportRow>, fileDate: string): SplitFile {
    SplitFile(entry.0, entry.1, FileName(fileDate, entry.0), ScratchPath(entry.0), Partition(cleaned, entry.0))
  }

  /** The loop over the folder-map entries `folders` on the cleaned table,
      skipping empty partitions. */
  function SplitOver(folders: seq<(string, string)>, cleaned: seq<ReportRow>, fileDate: string): (fs: seq<SplitFile>)
    ensures |fs| <= |folders|
    ensures forall k :: 0 <= k < |fs| ==> |fs[k].rows| > 0
    decreases |folders|
  {
    if |folders| == 0 then []
    else
      var f := FileFor(folders[0], cleaned, fileDate);
      (if |f.rows| == 0 then [] else [f]) + SplitOver(folders[1..], cleaned, fileDate)
  }

  /** `split_and_upload_by_attorney(df, file_date)`: never an empty file. */
  function Split(rows: seq<ReportRow>, fileDate: string): (fs: seq<SplitFile>)
    ensures forall k :: 0 <= k < |fs| ==> |fs[k].rows| > 0
  {
    SplitOver(AttorneyFolders, CleanRows(rows), fileDate)
  }

  /** Each file comes from a folder-map entry and holds exactly that
      attorney's (non-empty) partition, under the derived names. */
  lemma {:induction false} SplitFileShape(folders: seq<(string, string)>, cleaned: seq<ReportRow>, fileDate: string, f: SplitFile)
    requires f in SplitOver(folders, cleaned, fileDate)
    ensures (f.attorney, f.folder) in folders
    ensures f == FileFor((f.attorney, f.folder), cleaned, fileDate) && |f.rows| > 0
    decreases |folders|
  {
    var g := FileFor(folders[0], cleaned, fileDate);
    var head := if |g.rows| == 0 then [] else [g];
    assert SplitOver(folders, cleaned, fileDate) == head + SplitOver(folders[1..], cleaned, fileDate);
    if f in head {
      assert f == g && folders[0] == (f.attorney, f.folder);
    } else {
      SplitFileShape(folders[1..], cleaned, fileDate, f);
      assert (f.attorney, f.folder) in folders[1..];
    }
  }

  /** A folder-map attorney with rows gets their file. */
  lemma {:induction false} SplitCovers(folders: seq<(string, string)>, cleaned: seq<ReportRow>, fileDate: string, k: nat)
    requires k < |folders| && |Partition(cleaned, folders[k].0)| > 0
    ensures FileFor(folders[k], cleaned, fileDate) in SplitOver(folders, cleaned, fileDate)
    decreases |folders|
  {
    var g := FileFor(folders[0], cleaned, fileDate);
    var head := if |g.rows| == 0 then [] else [g];
    var rest := SplitOver(folders[1..], cleaned, fileDate);
    assert SplitOver(folders, cleaned, fileDate) == head + rest;
    if k > 0 {
      assert folders[1..][k - 1] == folders[k];
      SplitCovers(folders[1..], cleaned, fileDate, k - 1);
    } else {
      assert head == [g];
    }
  }

  /** A row is in a partition exactly when its stripped attorney is that
      partition's key. */
  lemma PartitionMembers(rows: seq<ReportRow>, atty: string, i: nat)
    requires i < |rows|
    ensures CleanRow(rows[i]) in Partition(CleanRows(rows), atty) <==> Strip(rows[i].attorney) == atty
  {
    var c := CleanRows(rows);
    assert c[i] == CleanRow(rows[i]);
    if Strip(rows[i].attorney) == atty {
      FilterKeeps(c, AttorneyIs(atty), c[i]);
    } else if c[i] in Partition(c, atty) {
      FilterSound(c, AttorneyIs(atty), c[i]);
    }
  }

  /** A row whose stripped attorney is not a key of the folder map lands in
      no file. */
  lemma UnmappedRowsNotSplit(folders: seq<(string, string)>, rows: seq<ReportRow>, fileDate: string, i: nat, f: SplitFile)
    requires i < |rows| && forall k :: 0 <= k < |folders| ==> folders[k].0 != Strip(rows[i].attorney)
    requires f in SplitOver(folders, CleanRows(rows), fileDate)
    ensures CleanRow(rows[i]) !in f.rows
  {
    SplitFileShape(folders, CleanRows(rows), fileDate, f);
    var k :| 0 <= k < |folders| && folders[k] == (f.attorney, f.folder);
    PartitionMembers(rows, f.attorney, i);
  }

  /** Stray whitespace around a mapped name does not keep a row out of its
      attorney's file. */
  lemma PaddedNameStillMatches(rows: seq<ReportRow>, i: nat, k: nat, p: string, q: string)
    requires i < |rows| && k < |AttorneyFolders|
    requires AllSpace(p) && AllSpace(q) && rows[i].attorney == p + AttorneyFolders[k].0 + q
    ensures CleanRow(rows[i]) in Partition(CleanRows(rows), AttorneyFolders[k].0)
  {
    var key := AttorneyFolders[k].0;
    assert |key| > 0 && !IsSpace(key[0]) && !IsSpace(key[|key| - 1]);
    StripPadded(p, key, q);
    PartitionMembers(rows, key, i);
  }

  /** The stub of a "Last, First" name is "Last_First". */
  lemma {:induction false} StubOfName(last: string, first: string)
    requires forall i :: 0 <= i < |last| ==> last[i] != ',' && last[i] != ' '
    requires forall i :: 0 <= i < |first| ==> first[i] != ',' && first[i] != ' '
    ensures Stub(last + ", " + first) == last + "_" + first
  {
    CommasOfName(last, first);
    SpacesOfName(last, first);
  }

  lemma {:induction false} CommasOfName(last: string, first: string)
    requires forall i :: 0 <= i < |last| ==> last[i] != ','
    requires forall i :: 0 <= i < |first| ==> first[i] != ','
    ensures DropCommas(last + ", " + first) == last + " " + first
  {
    var a := ", " + first;
    assert last + ", " + first == last + a;
    assert DropCommas(a) == " " + first by {
      DropCommasAppend(", ", first);
      CommaSpace();
      DropCommasKeeps(first);
    }
    assert DropCommas(last + a) == last + DropCommas(a) by {
      DropCommasAppend(last, a);
      DropCommasKeeps(last);
    }
    assert last + (" " + first) == last + " " + first;
  }

  lemma CommaSpace()
    ensures DropCommas(", ") == " "
  {
    assert ", "[1..] == " ";
    assert " "[1..] == "";
  }

  lemma SpaceUnderscore()
    ensures Underscores(" ") == "_"
  {
    assert " "[1..] == "";
  }

  lemma {:induction false} SpacesOfName(last: string, first: string)
    requires forall i :: 0 <= i < |last| ==> last[i] != ' '
    requires forall i :: 0 <= i < |first| ==> first[i] != ' '
    ensures Underscores(last + " " + first) == last + "_" + first
  {
    var a := " " + first;
    assert last + " " + first == last + a;
    assert Underscores(a) == "_" + first by {
      UnderscoresAppend(" ", first);
      SpaceUnderscore();
      UnderscoresKeeps(first);
    }
    assert Underscores(last + a) == last + Underscores(a) by {
      UnderscoresAppend(last, a);
      UnderscoresKeeps(last);
    }
    assert last + ("_" + first) == last + "_" + first;
  }

  lemma {:induction false} DropCommasAppend(a: string, b: string)
    ensures DropCommas(a + b) == DropCommas(a) + DropCommas(b)
    decreases |a|
  {
    if |a| == 0 {
      assert a + b == b;
    } else {
      assert (a + b)[0] == a[0] && (a + b)[1..] == a[1..] + b;
      DropCommasAppend(a[1..], b);
    }
  }

  lemma {:induction false} DropCommasKeeps(s: string)
    requires forall i :: 0 <= i < |s| ==> s[i] != ','
    ensures DropCommas(s) == s
    decreases |s|
  {
    if |s| > 0 {
      DropCommasKeeps(s[1..]);
    }
  }

  lemma {:induction false} UnderscoresAppend(a: string, b: string)
    ensures Underscores(a + b) == Underscores(a) + Underscores(b)
    decreases |a|
  {
    if |a| == 0 {
      assert a + b == b;
    } else {
      assert (a + b)[0] == a[0] && (a + b)[1..] == a[1..] + b;
      UnderscoresAppend(a[1..], b);
    }
  }

  lemma {:induction false} UnderscoresKeeps(s: string)
    requires forall i :: 0 <= i < |s| ==> s[i] != ' '
    ensures Underscores(s) == s
    decreases |s|
  {
    if |s| > 0 {
      UnderscoresKeeps(s[1..]);
    }
  }
}
