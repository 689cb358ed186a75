/** app.py: the single-file Streamlit variant, with its own strict folder
    builder, start-up block and upload handling. */
module App {
  import opened Files
  import opened Storage
  import Loader

  // ----- build_index_from_csv_folder -----

  /** What the loop of build_index_from_csv_folder ends with: the records it
      gathered, or the file whose load raised (app.py has no try/except around
      it, so that exception escapes to the caller). */
  datatype Gathered = Gathered(docs: seq<Record>) | Raised(file: FileName)

  function StrictRecords(names: seq<FileName>, files: map<FileName, Bytes>, parse: Parser): Gathered
  {
    if names == [] then Gathered([])
    else
      var last := names[|names| - 1];
      match StrictRecords(names[..|names| - 1], files, parse)
      case Raised(f) => Raised(f)
      case Gathered(docs) =>
        if !IsCsvName(last) then Gathered(docs)
        else match ReadCsv(files, last, parse)
          case None => Raised(last)
          case Some(rs) => Gathered(docs + rs)
  }

  /** Once a load has raised, the files after it are never looked at. */
  lemma {:induction false} StrictStopsAtRaise(names: seq<FileName>, files: map<FileName, Bytes>, parse: Parser, k: nat)
    requires k <= |names| && StrictRecords(names[..k], files, parse).Raised?
    ensures StrictRecords(names, files, parse) == StrictRecords(names[..k], files, parse)
  {
    if k < |names| {
      var init := names[..|names| - 1];
      assert init[..k] == names[..k];
      StrictStopsAtRaise(init, files, parse, k);
    } else {
      assert names[..k] == names;
    }
  }

  /** build_index_from_csv_folder (app.py:57-65): None when the CSV-named files
      yield no records, a new index holding them all otherwise; the first load
      that raises aborts the build. */
  method BuildIndexFromCsvFolder(folder: Folder, parse: Parser) returns (base: VectorIndex?, raised: Option<FileName>)
    ensures match StrictRecords(folder.names, folder.files, parse)
      case Raised(f) => raised == Some(f) && base == null
      case Gathered(docs) =>
        && raised == None
        && (base == null <==> docs == [])
        && (base != null ==> fresh(base) && base.entries == docs)
  {
    var docs := [];
    for i := 0 to |folder.names|
      invariant StrictRecords(folder.names[..i], folder.files, parse) == Gathered(docs)
    {
      var file := folder.names[i];
      assert folder.names[..i + 1][..i] == folder.names[..i];
      if IsCsvName(file) {
        match ReadCsv(folder.files, file, parse) {
          case None =>
            StrictStopsAtRaise(folder.names, folder.files, parse, i + 1);
            return null, Some(file);
          case Some(rs) =>
            docs := docs + rs;
        }
      }
    }
    assert folder.names[..|folder.names|] == folder.names;
    if docs == [] {
      return null, None;
    }
    base := new VectorIndex.FromDocuments(docs);
    raised := None;
  }

  /** Listed file `i` is CSV-named and its load raises. */
  ghost predicate LoadRaises(names: seq<FileName>, files: map<FileName, Bytes>, parse: Parser, i: int)
  {
    0 <= i < |names| && IsCsvName(names[i]) && ReadCsv(files, names[i], parse).None?
  }

  /** The strict builder and the lenient loader of loader.py agree on every
      folder whose CSV files all load; otherwise the strict one stops at the
      first CSV file whose load raises. */
  lemma {:induction false} StrictAgreesWithLenient(names: seq<FileName>, files: map<FileName, Bytes>, parse: Parser)
    ensures StrictRecords(names, files, parse).Gathered? <==> forall i :: !LoadRaises(names, files, parse, i)
    ensures StrictRecords(names, files, parse).Gathered? ==>
      StrictRecords(names, files, parse).docs == Loader.ListedRecords(names, files, parse)
    ensures StrictRecords(names, files, parse).Raised? ==>
      exists k :: && LoadRaises(names, files, parse, k)
                  && names[k] == StrictRecords(names, files, parse).file
                  && forall i :: 0 <= i < k ==> !LoadRaises(names, files, parse, i)
  {
    if names != [] {
      var init := names[..|names| - 1];
      var last := |names| - 1;
      StrictAgreesWithLenient(init, files, parse);
      assert forall i :: 0 <= i < last ==> (LoadRaises(init, files, parse, i) <==> LoadRaises(names, files, parse, i));
      match StrictRecords(init, files, parse) {
        case Raised(f) =>
          var k :| LoadRaises(init, files, parse, k) && init[k] == f
                   && forall i :: 0 <= i < k ==> !LoadRaises(init, files, parse, i);
          assert LoadRaises(names, files, parse, k);
        case Gathered(docs) =>
          if LoadRaises(names, files, parse, last) {
            assert StrictRecords(names, files, parse) == Raised(names[last]);
          }
      }
    }
  }

  // ----- upload deduplication -----

  /** The names app.py treats as known: the files of both folders whose name
      ends in ".csv", tested case-sensitively (app.py:114-115). */
  function KnownCsvNames(defaultDir: Folder, uploadDir: Folder): set<FileName>
  {
    (set n | n in defaultDir.files && HasCsvSuffix(n)) + (set n | n in uploadDir.files && HasCsvSuffix(n))
  }

  /** The state of the upload loop: the known set, the new records, the skipped
      names, the uploads written so far and the upload whose load raised. */
  datatype Batch = Batch(known: set<FileName>, docs: seq<Record>, skipped: seq<FileName>,
                         written: seq<Upload>, failed: Option<FileName>)

  /** One iteration of the loop (app.py:119-127). */
  function Step(b: Batch, u: Upload, parse: Parser): Batch
  {
    if b.failed.Some? then b
    else if u.name in b.known then b.(skipped := b.skipped + [u.name])
    else match parse(u.name, u.data)
      case None => b.(written := b.written + [u], failed := Some(u.name))
      case Some(rs) => b.(written := b.written + [u], docs := b.docs + rs, known := b.known + {u.name})
  }

  /** The loop over a whole batch of uploads. */
  function Run(known: set<FileName>, ups: seq<Upload>, parse: Parser): Batch
  {
    if ups == [] then Batch(known, [], [], [], None)
    else Step(Run(known, ups[..|ups| - 1], parse), ups[|ups| - 1], parse)
  }

  lemma RunSnoc(known: set<FileName>, ups: seq<Upload>, i: nat, parse: Parser)
    requires i < |ups|
    ensures Run(known, ups[..i + 1], parse) == Step(Run(known, ups[..i], parse), ups[i], parse)
  {
    assert ups[..i + 1][..i] == ups[..i];
  }

  /** After a load raises, the rest of the batch is not processed. */
  lemma {:induction false} RunStopsAtRaise(known: set<FileName>, ups: seq<Upload>, k: nat, parse: Parser)
    requires k <= |ups| && Run(known, ups[..k], parse).failed.Some?
    ensures Run(known, ups, parse) == Run(known, ups[..k], parse)
  {
    if k < |ups| {
      var init := ups[..|ups| - 1];
      assert init[..k] == ups[..k];
      RunStopsAtRaise(known, init, k, parse);
    } else {
      assert ups[..k] == ups;
    }
  }

  /** Facts the loop keeps: the known set is the initial one plus every name
      accepted so far, and no name is written twice or was known at the start. */
  ghost predicate Consistent(known0: set<FileName>, b: Batch)
  {
    && (b.failed.None? ==> b.known == known0 + NameSet(b.written))
    && (forall i, j :: 0 <= i < j < |b.written| ==> b.written[i].name != b.written[j].name)
    && (forall i :: 0 <= i < |b.written| ==> b.written[i].name !in known0)
  }

  lemma {:induction false} RunConsistent(known: set<FileName>, ups: seq<Upload>, parse: Parser)
    ensures Consistent(known, Run(known, ups, parse))
  {
    if ups != [] {
      var init, u := ups[..|ups| - 1], ups[|ups| - 1];
      RunConsistent(known, init, parse);
      var b := Run(known, init, parse);
      if b.failed.None? && u.name !in b.known {
        NamesSnoc(b.written, u);
        assert NameSet(b.written + [u]) == NameSet(b.written) + {u.name};
        forall i | 0 <= i < |b.written|
          ensures b.written[i].name != u.name
        {
          assert b.written[i].name in NameSet(b.written);
        }
      }
    }
  }

  /** No name is accepted twice in one batch, and no accepted name was known. */
  lemma AcceptedOnce(known: set<FileName>, ups: seq<Upload>, parse: Parser)
    ensures var w := Run(known, ups, parse).written;
      && (forall i, j :: 0 <= i < j < |w| ==> w[i].name != w[j].name)
      && (forall i :: 0 <= i < |w| ==> w[i].name !in known)
  {
    RunConsistent(known, ups, parse);
  }

  /** A skipped upload is never written: a name known at the start keeps its
      presence and its bytes in the upload folder, whatever the batch. */
  lemma SkippedNeverWritten(known: set<FileName>, ups: seq<Upload>, dir: Folder, n: FileName, parse: Parser)
    requires n in known
    ensures n in dir.WriteAll(Run(known, ups, parse).written).files <==> n in dir.files
    ensures n in dir.files ==> dir.WriteAll(Run(known, ups, parse).written).files[n] == dir.files[n]
  {
    var w := Run(known, ups, parse).written;
    RunConsistent(known, ups, parse);
    forall i | 0 <= i < |w|
      ensures Names(w)[i] != n
    {
      assert w[i].name !in known;
    }
    assert n !in NameSet(w);
    WriteAllUntouched(dir, w, n);
  }

  /** A batch that runs to the end has every upload's name known afterwards. */
  lemma {:induction false} KnownAfterRun(known: set<FileName>, ups: seq<Upload>, parse: Parser)
    requires Run(known, ups, parse).failed.None?
    ensures Run(known, ups, parse).known == known + NameSet(ups)
  {
    if ups != [] {
      var init, u := ups[..|ups| - 1], ups[|ups| - 1];
      KnownAfterRun(known, init, parse);
      NamesSnoc(init, u);
      assert ups == init + [u];
      assert NameSet(ups) == NameSet(init) + {u.name};
    }
  }

  /** Reference definition of the skipped list: an upload is skipped exactly
      when its name was known at the start or appeared earlier in the batch. */
  function Repeats(known: set<FileName>, ups: seq<Upload>): seq<FileName>
  {
    if ups == [] then []
    else
      var init, u := ups[..|ups| - 1], ups[|ups| - 1];
      Repeats(known, init) + (if u.name in known || u.name in Names(init) then [u.name] else [])
  }

  /** Reference definition of the accepted list: the first upload of each name
      not known at the start. */
  function Firsts(known: set<FileName>, ups: seq<Upload>): seq<Upload>
  {
    if ups == [] then []
    else
      var init, u := ups[..|ups| - 1], ups[|ups| - 1];
      Firsts(known, init) + (if u.name in known || u.name in Names(init) then [] else [u])
  }

  /** A batch that runs to the end skips exactly the repeats, in upload order,
      and writes exactly the first upload of each new name. */
  lemma {:induction false} RunMatchesReference(known: set<FileName>, ups: seq<Upload>, parse: Parser)
    requires Run(known, ups, parse).failed.None?
    ensures Run(known, ups, parse).skipped == Repeats(known, ups)
    ensures Run(known, ups, parse).written == Firsts(known, ups)
  {
    if ups != [] {
      var init, u := ups[..|ups| - 1], ups[|ups| - 1];
      var b := Run(known, init, parse);
      assert b.failed.None?;
      RunMatchesReference(known, init, parse);
      KnownAfterRun(known, init, parse);
      assert u.name in b.known <==> u.name in known || u.name in Names(init);
    }
  }

  /** The new records are those of the written uploads, in upload order. */
  lemma {:induction false} RunDocs(known: set<FileName>, ups: seq<Upload>, parse: Parser)
    ensures Run(known, ups, parse).docs == ParsedRecords(Run(known, ups, parse).written, parse)
  {
    if ups != [] {
      var init, u := ups[..|ups| - 1], ups[|ups| - 1];
      RunDocs(known, init, parse);
      var b := Run(known, init, parse);
      if b.failed.None? && u.name !in b.known {
        assert (b.written + [u])[..|b.written|] == b.written;
      }
    }
  }

  /** Every upload of a batch that runs to the end lands in exactly one of the
      skipped list and the written list. */
  lemma {:induction false} RunPartition(known: set<FileName>, ups: seq<Upload>, parse: Parser)
    requires Run(known, ups, parse).failed.None?
    ensures var b := Run(known, ups, parse);
      multiset(b.skipped) + multiset(Names(b.written)) == multiset(Names(ups))
  {
    if ups != [] {
      var init, u := ups[..|ups| - 1], ups[|ups| - 1];
      assert Run(known, init, parse).failed.None?;
      RunPartition(known, init, parse);
      assert ups == init + [u];
      NamesSnoc(init, u);
      PartitionStep(Run(known, init, parse), u, parse);
    }
  }

  lemma PartitionStep(b: Batch, u: Upload, parse: Parser)
    requires b.failed.None? && Step(b, u, parse).failed.None?
    ensures var b' := Step(b, u, parse);
      multiset(b'.skipped) + multiset(Names(b'.written))
      == multiset(b.skipped) + multiset(Names(b.written)) + multiset{u.name}
  {
    if u.name in b.known {
      assert Step(b, u, parse).skipped == b.skipped + [u.name];
      assert Step(b, u, parse).written == b.written;
      assert multiset(b.skipped + [u.name]) == multiset(b.skipped) + multiset{u.name};
    } else {
      assert Step(b, u, parse).skipped == b.skipped;
      assert Step(b, u, parse).written == b.written + [u];
      NamesSnoc(b.written, u);
      assert multiset(Names(b.written) + [u.name]) == multiset(Names(b.written)) + multiset{u.name};
    }
  }

  /** Two uploads of one new name in one batch: the first is written and
      loaded, the second is skipped. */
  lemma SameNameTwiceSecondSkipped(known: set<FileName>, u1: Upload, u2: Upload, parse: Parser)
    requires u1.name == u2.name && u1.name !in known && parse(u1.name, u1.data).Some?
    ensures Run(known, [u1, u2], parse).written == [u1]
    ensures Run(known, [u1, u2], parse).skipped == [u2.name]
  {
    assert [u1, u2][..1] == [u1];
    assert [u1][..0] == [];
    var b1 := Run(known, [u1], parse);
    assert Run(known, [], parse) == Batch(known, [], [], [], None);
    assert b1 == Step(Run(known, [], parse), u1, parse);
    assert b1.written == [u1] && b1.failed.None? && u1.name in b1.known;
  }

  /** The two variants disagree on a file "A.CSV" already in the default
      folder: loader.py skips a re-upload of it, app.py writes it again and
      takes all its records as new records to index. */
  lemma UpperCaseReuploadContrast(defaultDir: Folder, uploadDir: Folder, u: Upload, parse: Parser)
    requires u.name == "A.CSV" && u.name in defaultDir.files && parse(u.name, u.data).Some?
    ensures Loader.Skipped(Loader.KnownNames(defaultDir, uploadDir), [u]) == [u.name]
    ensures Run(KnownCsvNames(defaultDir, uploadDir), [u], parse).written == [u]
    ensures Run(KnownCsvNames(defaultDir, uploadDir), [u], parse).skipped == []
    ensures Run(KnownCsvNames(defaultDir, uploadDir), [u], parse).docs == parse(u.name, u.data).value
  {
    UpperCaseCsvName();
    assert [u][..0] == [];
  }

  // ----- the session -----

  /** st.session_state: only the live index is modelled. */
  class Session {
    var vectors: VectorIndex?

    /** app.py:49-50: a new session has no live index. */
    constructor ()
      ensures vectors == null
    {
      vectors := null;
    }

    /** The start-up block (app.py:70-77): with no live index, load the
        persisted one, or else (nothing saved, or what is saved cannot be
        loaded) build one from the default folder, saving it
        and making it live only when the build produced one. */
    method StartUp(disk: Disk, parse: Parser) returns (raised: Option<FileName>)
      modifies this, disk`saved, disk`saveLog
      ensures old(vectors) != null ==>
        && vectors == old(vectors) && raised == None
        && disk.saved == old(disk.saved) && disk.saveLog == old(disk.saveLog)
      ensures old(vectors) == null && old(disk.Loaded()).Some? ==>
        && vectors != null && fresh(vectors) && vectors.entries == old(disk.saved).value && raised == None
        && disk.saved == old(disk.saved) && disk.saveLog == old(disk.saveLog)
      ensures old(vectors) == null && old(disk.Loaded()).None? ==>
        match StrictRecords(disk.defaultDir.names, disk.defaultDir.files, parse)
        case Raised(f) =>
          && raised == Some(f) && vectors == null
          && disk.saved == old(disk.saved) && disk.saveLog == old(disk.saveLog)
        case Gathered(docs) =>
          && raised == None
          && (docs == [] ==> vectors == null && disk.saved == old(disk.saved) && disk.saveLog == old(disk.saveLog))
          && (docs != [] ==>
                && vectors != null && fresh(vectors) && vectors.entries == docs
                && disk.saved == Some(docs) && disk.saveLog == old(disk.saveLog) + [docs])
    {
      raised := None;
      if vectors == null {
        var loaded := disk.LoadLocal();
        if loaded != null {
          vectors := loaded;
        } else {
          var base;
          base, raised := BuildIndexFromCsvFolder(disk.defaultDir, parse);
          if base != null {
            base.SaveLocal(disk);
            vectors := base;
          }
        }
      }
    }

    /** The upload block (app.py:113-139). When new records result from the
        uploads they are merged into the live index (or become it) and saved;
        a load that raises aborts the block before anything is merged or saved. */
    method IngestUploads(disk: Disk, uploads: seq<Upload>, parse: Parser)
      returns (skipped: seq<FileName>, raised: Option<FileName>)
      requires disk.Valid()
      modifies this, vectors, disk`uploadDir, disk`saved, disk`saveLog
      ensures disk.Valid()
      ensures var b := Run(old(KnownCsvNames(disk.defaultDir, disk.uploadDir)), uploads, parse);
        && skipped == b.skipped && raised == b.failed
        && disk.uploadDir == old(disk.uploadDir).WriteAll(b.written)
      ensures var b := Run(old(KnownCsvNames(disk.defaultDir, disk.uploadDir)), uploads, parse);
        b.failed.Some? || b.docs == [] ==>
          && vectors == old(vectors) && (vectors != null ==> vectors.entries == old(vectors.entries))
          && disk.saved == old(disk.saved) && disk.saveLog == old(disk.saveLog)
      ensures var b := Run(old(KnownCsvNames(disk.defaultDir, disk.uploadDir)), uploads, parse);
        b.failed.None? && b.docs != [] ==>
          && vectors != null
          && (old(vectors) != null ==> vectors == old(vectors) && vectors.entries == old(vectors.entries) + b.docs)
          && (old(vectors) == null ==> fresh(vectors) && vectors.entries == b.docs)
          && disk.saved == Some(vectors.entries) && disk.saveLog == old(disk.saveLog) + [vectors.entries]
    {
      if uploads == [] {
        return [], None;
      }
      var newDocs;
      newDocs, skipped, raised := SaveAndLoadUploads(disk, uploads, parse);
      if raised.Some? {
        return;
      }
      if newDocs != [] {
        var newStore := new VectorIndex.FromDocuments(newDocs);
        if vectors != null {
          vectors.MergeFrom(newStore);
        } else {
          vectors := newStore;
        }
        vectors.SaveLocal(disk);
      }
    }
  }

  /** The loop of the upload block (app.py:114-127): known names are collected,
      then each upload is skipped or written and loaded, its name joining the
      known set. A load that raises ends the loop; the uploads written so far,
      that one included, stay written. */
  method SaveAndLoadUploads(disk: Disk, uploads: seq<Upload>, parse: Parser)
    returns (newDocs: seq<Record>, skipped: seq<FileName>, raised: Option<FileName>)
    requires disk.Valid()
    modifies disk`uploadDir
    ensures disk.Valid()
    ensures var b := Run(old(KnownCsvNames(disk.defaultDir, disk.uploadDir)), uploads, parse);
      && newDocs == b.docs && skipped == b.skipped && raised == b.failed
      && disk.uploadDir == old(disk.uploadDir).WriteAll(b.written)
  {
    var existing := KnownCsvNames(disk.defaultDir, disk.uploadDir);
    ghost var known0, dir0 := existing, disk.uploadDir;
    ghost var written: seq<Upload> := [];
    newDocs, skipped, raised := [], [], None;
    for i := 0 to |uploads|
      invariant disk.uploadDir.Valid()
      invariant Run(known0, uploads[..i], parse) == Batch(existing, newDocs, skipped, written, None)
      invariant disk.uploadDir == dir0.WriteAll(written)
    {
      var file := uploads[i];
      RunSnoc(known0, uploads, i, parse);
      if file.name in existing {
        skipped := skipped + [file.name];
      } else {
        assert (written + [file])[..|written|] == written;
        disk.uploadDir := disk.uploadDir.Write(file.name, file.data);
        written := written + [file];
        // CSVLoader reads back the file just written
        assert ReadCsv(disk.uploadDir.files, file.name, parse) == parse(file.name, file.data);
        match ReadCsv(disk.uploadDir.files, file.name, parse) {
          case None =>
            RunStopsAtRaise(known0, uploads, i + 1, parse);
            return newDocs, skipped, Some(file.name);
          case Some(rs) =>
            newDocs := newDocs + rs;
        }
        existing := existing + {file.name};
      }
    }
    assert uploads[..|uploads|] == uploads;
  }
}
