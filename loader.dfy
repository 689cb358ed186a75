/** loader.py: the lenient CSV folder loader and upload handling without
    case filtering, used by the main.py front end. */
module Loader {
  import opened Files
  import opened Storage

  /** The records one listed file contributes to load_csvs_from_folder: none
      unless its lower-cased name ends in ".csv" and it parses. */
  function Contribution(name: FileName, files: map<FileName, Bytes>, parse: Parser): seq<Record>
  {
    if !IsCsvName(name) then []
    else match ReadCsv(files, name, parse)
      case Some(rs) => rs
      case None => []
  }

  /** What load_csvs_from_folder returns for a folder listing `names`. */
  function ListedRecords(names: seq<FileName>, files: map<FileName, Bytes>, parse: Parser): seq<Record>
  {
    if names == [] then []
    else
      var last := names[|names| - 1];
      ListedRecords(names[..|names| - 1], files, parse) + Contribution(last, files, parse)
  }

  /** load_csvs_from_folder (loader.py:14-23). A file whose load raises is
      logged and skipped; the call itself never fails. */
  method LoadCsvsFromFolder(folder: Folder, parse: Parser) returns (docs: seq<Record>)
    ensures docs == ListedRecords(folder.names, folder.files, parse)
  {
    docs := [];
    for i := 0 to |folder.names|
      invariant docs == ListedRecords(folder.names[..i], folder.files, parse)
    {
      var file := folder.names[i];
      if IsCsvName(file) {
        match ReadCsv(folder.files, file, parse) {
          case Some(rs) =>
            docs := docs + rs;
          case None =>
        }
      }
      assert folder.names[..i + 1][..i] == folder.names[..i];
    }
    assert folder.names[..|folder.names|] == folder.names;
  }

  /** Listing order is kept: the records of a listing are those of its first
      part followed by those of its second. */
  lemma {:induction false} ListedRecordsAppend(a: seq<FileName>, b: seq<FileName>, files: map<FileName, Bytes>, parse: Parser)
    ensures ListedRecords(a + b, files, parse) == ListedRecords(a, files, parse) + ListedRecords(b, files, parse)
  {
    if b == [] {
      assert a + b == a;
    } else {
      var b', last := b[..|b| - 1], b[|b| - 1];
      assert a + b == (a + b') + [last];
      ListedRecordsAppend(a, b', files, parse);
      ListedRecordsSnoc(a + b', last, files, parse);
      ListedRecordsSnoc(b', last, files, parse);
    }
  }

  lemma ListedRecordsSnoc(names: seq<FileName>, n: FileName, files: map<FileName, Bytes>, parse: Parser)
    ensures ListedRecords(names + [n], files, parse) == ListedRecords(names, files, parse) + Contribution(n, files, parse)
  {
    assert (names + [n])[..|names|] == names;
  }

  /** A listed file that is not CSV-named, or whose load raises, adds nothing,
      and the files around it are still loaded. */
  lemma SkippedFileContributesNothing(a: seq<FileName>, n: FileName, b: seq<FileName>, files: map<FileName, Bytes>, parse: Parser)
    requires !IsCsvName(n) || ReadCsv(files, n, parse).None?
    ensures ListedRecords(a + [n] + b, files, parse) == ListedRecords(a, files, parse) + ListedRecords(b, files, parse)
  {
    ListedRecordsAppend(a + [n], b, files, parse);
    ListedRecordsSnoc(a, n, files, parse);
  }

  /** Listed file `i` is CSV-named, parses, and its records include `r`. */
  ghost predicate Yields(names: seq<FileName>, files: map<FileName, Bytes>, parse: Parser, i: int, r: Record)
  {
    && 0 <= i < |names|
    && IsCsvName(names[i])
    && ReadCsv(files, names[i], parse).Some?
    && r in ReadCsv(files, names[i], parse).value
  }

  /** A record is loaded exactly when some CSV-named file of the listing parses
      to records that include it. */
  lemma {:induction false} ListedRecordsMembers(names: seq<FileName>, files: map<FileName, Bytes>, parse: Parser, r: Record)
    ensures r in ListedRecords(names, files, parse) <==> exists i :: Yields(names, files, parse, i, r)
  {
    if names != [] {
      var init := names[..|names| - 1];
      var k := |names| - 1;
      ListedRecordsMembers(init, files, parse, r);
      if r in ListedRecords(names, files, parse) {
        if r in ListedRecords(init, files, parse) {
          var i :| Yields(init, files, parse, i, r);
          assert Yields(names, files, parse, i, r);
        } else {
          assert Yields(names, files, parse, k, r);
        }
      }
      if exists i :: Yields(names, files, parse, i, r) {
        var i :| Yields(names, files, parse, i, r);
        if i < k {
          assert Yields(init, files, parse, i, r);
        }
      }
    }
  }

  // ----- handle_uploads -----

  /** The names handle_uploads treats as known: every file of both folders,
      whatever its extension (loader.py:27). */
  function KnownNames(defaultDir: Folder, uploadDir: Folder): set<FileName>
  {
    defaultDir.files.Keys + uploadDir.files.Keys
  }

  /** The uploads reported as skipped: those whose name is known, in upload order. */
  function Skipped(known: set<FileName>, ups: seq<Upload>): seq<FileName>
  {
    if ups == [] then []
    else
      var u := ups[|ups| - 1];
      Skipped(known, ups[..|ups| - 1]) + (if u.name in known then [u.name] else [])
  }

  /** The uploads written and loaded: those whose name is not known. The known
      set is never updated, so repeated new names are all accepted. */
  function Accepted(known: set<FileName>, ups: seq<Upload>): seq<Upload>
  {
    if ups == [] then []
    else
      var u := ups[|ups| - 1];
      Accepted(known, ups[..|ups| - 1]) + (if u.name in known then [] else [u])
  }

  /** One more upload extends the skipped list, the accepted list, and hence
      the new records and the written folder, by that upload alone. */
  lemma UploadStep(known: set<FileName>, ups: seq<Upload>, i: nat, dir: Folder, parse: Parser)
    requires i < |ups|
    ensures Skipped(known, ups[..i + 1])
         == Skipped(known, ups[..i]) + (if ups[i].name in known then [ups[i].name] else [])
    ensures Accepted(known, ups[..i + 1])
         == Accepted(known, ups[..i]) + (if ups[i].name in known then [] else [ups[i]])
    ensures ups[i].name !in known ==>
      && ParsedRecords(Accepted(known, ups[..i + 1]), parse)
         == ParsedRecords(Accepted(known, ups[..i]), parse) + Parsed(ups[i], parse)
      && dir.WriteAll(Accepted(known, ups[..i + 1]))
         == dir.WriteAll(Accepted(known, ups[..i])).Write(ups[i].name, ups[i].data)
  {
    assert ups[..i + 1][..i] == ups[..i];
    if ups[i].name !in known {
      var acc := Accepted(known, ups[..i]);
      assert (acc + [ups[i]])[..|acc|] == acc;
    }
  }

  /** handle_uploads (loader.py:25-42): returns the new records and the skipped
      names, and writes every accepted upload into the upload folder. */
  method HandleUploads(disk: Disk, uploads: seq<Upload>, parse: Parser)
    returns (newDocs: seq<Record>, skipped: seq<FileName>)
    requires disk.Valid()
    modifies disk`uploadDir
    ensures disk.Valid()
    ensures var known := old(KnownNames(disk.defaultDir, disk.uploadDir));
      && skipped == Skipped(known, uploads)
      && newDocs == ParsedRecords(Accepted(known, uploads), parse)
      && disk.uploadDir == old(disk.uploadDir).WriteAll(Accepted(known, uploads))
  {
    newDocs, skipped := [], [];
    var existing := KnownNames(disk.defaultDir, disk.uploadDir);
    ghost var dir0 := disk.uploadDir;
    for i := 0 to |uploads|
      invariant disk.uploadDir.Valid()
      invariant skipped == Skipped(existing, uploads[..i])
      invariant newDocs == ParsedRecords(Accepted(existing, uploads[..i]), parse)
      invariant disk.uploadDir == dir0.WriteAll(Accepted(existing, uploads[..i]))
    {
      var file := uploads[i];
      UploadStep(existing, uploads, i, dir0, parse);
      if file.name in existing {
        assert Accepted(existing, uploads[..i + 1]) == Accepted(existing, uploads[..i]);
        skipped := skipped + [file.name];
      } else {
        ghost var acc := Accepted(existing, uploads[..i]);
        assert Accepted(existing, uploads[..i + 1]) == acc + [file];
        assert dir0.WriteAll(acc + [file]) == dir0.WriteAll(acc).Write(file.name, file.data);
        assert ParsedRecords(acc + [file], parse) == ParsedRecords(acc, parse) + Parsed(file, parse);
        disk.uploadDir := disk.uploadDir.Write(file.name, file.data);
        // CSVLoader reads back the file just written
        assert ReadCsv(disk.uploadDir.files, file.name, parse) == parse(file.name, file.data);
        match ReadCsv(disk.uploadDir.files, file.name, parse) {
          case Some(rs) =>
            assert rs == Parsed(file, parse);
            newDocs := newDocs + rs;
          case None =>
            assert Parsed(file, parse) == [];
        }
      }
    }
    assert uploads[..|uploads|] == uploads;
  }

  /** Every upload lands in exactly one of the two lists. */
  lemma {:induction false} UploadsPartition(known: set<FileName>, ups: seq<Upload>)
    ensures multiset(Skipped(known, ups)) + multiset(Names(Accepted(known, ups))) == multiset(Names(ups))
  {
    if ups != [] {
      var init, u := ups[..|ups| - 1], ups[|ups| - 1];
      assert ups == init + [u];
      UploadsPartition(known, init);
      PartitionStep(known, init, u);
      NamesSnoc(init, u);
      assert multiset(Names(init + [u])) == multiset(Names(init)) + multiset{u.name};
    }
  }

  lemma PartitionStep(known: set<FileName>, init: seq<Upload>, u: Upload)
    ensures multiset(Skipped(known, init + [u])) + multiset(Names(Accepted(known, init + [u])))
         == multiset(Skipped(known, init)) + multiset(Names(Accepted(known, init))) + multiset{u.name}
  {
    var ups := init + [u];
    assert ups[..|init|] == init;
    var acc, sk := Accepted(known, init), Skipped(known, init);
    if u.name !in known {
      assert Accepted(known, ups) == acc + [u];
      assert Skipped(known, ups) == sk;
      NamesSnoc(acc, u);
      assert multiset(Names(acc + [u])) == multiset(Names(acc)) + multiset{u.name};
    } else {
      assert Accepted(known, ups) == acc;
      assert Skipped(known, ups) == sk + [u.name];
      assert multiset(sk + [u.name]) == multiset(sk) + multiset{u.name};
    }
  }

  /** The skipped names are exactly the known names among the uploads. */
  lemma {:induction false} SkippedAreKnown(known: set<FileName>, ups: seq<Upload>, n: FileName)
    ensures n in Skipped(known, ups) <==> n in known && n in Names(ups)
  {
    if ups != [] {
      var init := ups[..|ups| - 1];
      SkippedAreKnown(known, init, n);
      assert Names(ups) == Names(init) + [ups[|ups| - 1].name];
    }
  }

  /** The accepted uploads are exactly the uploads whose name is not known. */
  lemma {:induction false} AcceptedAreNew(known: set<FileName>, ups: seq<Upload>, u: Upload)
    ensures u in Accepted(known, ups) <==> u in ups && u.name !in known
  {
    if ups != [] {
      var init := ups[..|ups| - 1];
      AcceptedAreNew(known, init, u);
      assert ups == init + [ups[|ups| - 1]];
    }
  }

  /** No accepted upload carries a known name. */
  lemma {:induction false} AcceptedNamesNew(known: set<FileName>, ups: seq<Upload>, n: FileName)
    requires n in known
    ensures n !in Names(Accepted(known, ups))
  {
    if ups != [] {
      var init := ups[..|ups| - 1];
      AcceptedNamesNew(known, init, n);
      var acc := Accepted(known, init);
      if ups[|ups| - 1].name !in known {
        assert (acc + [ups[|ups| - 1]])[..|acc|] == acc;
      }
    }
  }

  /** A skipped upload is never written: every known file of the upload folder
      keeps its bytes, and no known name appears there afresh. */
  lemma SkippedNeverWritten(known: set<FileName>, ups: seq<Upload>, dir: Folder, n: FileName)
    requires n in known
    ensures n in dir.WriteAll(Accepted(known, ups)).files <==> n in dir.files
    ensures n in dir.files ==> dir.WriteAll(Accepted(known, ups)).files[n] == dir.files[n]
  {
    AcceptedNamesNew(known, ups, n);
    WriteAllUntouched(dir, Accepted(known, ups), n);
  }

  lemma {:induction false} AcceptedAppend(known: set<FileName>, a: seq<Upload>, b: seq<Upload>)
    ensures Accepted(known, a + b) == Accepted(known, a) + Accepted(known, b)
  {
    if b == [] {
      assert a + b == a;
    } else {
      var b' := b[..|b| - 1];
      assert (a + b)[..|a + b| - 1] == a + b';
      AcceptedAppend(known, a, b');
    }
  }

  /** An accepted upload whose parse raises is still written, but adds no
      records, and the uploads after it are still processed. */
  lemma FailedUploadContributesNothing(known: set<FileName>, a: seq<Upload>, u: Upload, b: seq<Upload>, parse: Parser)
    requires u.name !in known && parse(u.name, u.data).None?
    ensures Accepted(known, a + [u] + b) == Accepted(known, a) + [u] + Accepted(known, b)
    ensures ParsedRecords(Accepted(known, a + [u] + b), parse)
         == ParsedRecords(Accepted(known, a), parse) + ParsedRecords(Accepted(known, b), parse)
  {
    assert Accepted(known, [u]) == [u] by {
      assert [u][..0] == [];
    }
    AcceptedAppend(known, a + [u], b);
    AcceptedAppend(known, a, [u]);
    FailedParseAddsNothing(Accepted(known, a), u, Accepted(known, b), parse);
  }

  /** Two uploads of one new name in one batch are both accepted: both are
      loaded, and the second overwrites the first on disk. */
  lemma SameNameTwiceBothAccepted(known: set<FileName>, u1: Upload, u2: Upload, dir: Folder, parse: Parser)
    requires u1.name == u2.name && u1.name !in known
    ensures Accepted(known, [u1, u2]) == [u1, u2]
    ensures Skipped(known, [u1, u2]) == []
    ensures ParsedRecords(Accepted(known, [u1, u2]), parse)
         == ParsedRecords([u1], parse) + ParsedRecords([u2], parse)
    ensures dir.WriteAll(Accepted(known, [u1, u2])).files[u2.name] == u2.data
  {
    assert [u1, u2][..1] == [u1];
    assert [u1][..0] == [];
    assert Accepted(known, [u1]) == [u1];
    assert Skipped(known, [u1]) == [];
    assert Accepted(known, [u1, u2]) == [u1, u2];
    assert [u1] + [u2] == [u1, u2];
    ParsedRecordsAppend([u1], [u2], parse);
    WriteAllLastWins(dir, [u1, u2], 1);
  }
}
