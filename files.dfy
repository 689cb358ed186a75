/** Shared vocabulary of the CSV chat tool: file names, file contents, the
    records a CSV file yields, the two CSV folders and uploaded files. */
module Files {

  datatype Option<+T> = None | Some(value: T)

  newtype Byte = b: int | 0 <= b < 256
  type Bytes = seq<Byte>
  type FileName = string

  /** One row of a CSV file as the loader hands it on: the row's text, the file
      it came from and its position in that file. */
  datatype Record = Record(content: string, source: FileName, row: nat)

  /** The CSV parser (CSVLoader(...).load()) is left opaque: given the name and
      the bytes of a file it either yields the file's records or raises (None). */
  type Parser = (FileName, Bytes) -> Option<seq<Record>>

  /** A file offered through the upload widget: its name and its bytes. */
  datatype Upload = Upload(name: FileName, data: Bytes)

  /** The names of a batch of uploads, in upload order. */
  function Names(ups: seq<Upload>): (r: seq<FileName>)
    ensures |r| == |ups|
    ensures forall i :: 0 <= i < |ups| ==> r[i] == ups[i].name
  {
    if ups == [] then [] else Names(ups[..|ups| - 1]) + [ups[|ups| - 1].name]
  }

  lemma NamesSnoc(ups: seq<Upload>, u: Upload)
    ensures Names(ups + [u]) == Names(ups) + [u.name]
  {
    assert (ups + [u])[..|ups|] == ups;
  }

  /** The names of a batch of uploads, as a set. */
  function NameSet(ups: seq<Upload>): set<FileName>
  {
    set n | n in Names(ups)
  }

  /** The records a batch of files yields, in batch order, when each is parsed
      on its own and a file whose parse raises yields none. */
  function ParsedRecords(ups: seq<Upload>, parse: Parser): seq<Record>
  {
    if ups == [] then [] else ParsedRecords(ups[..|ups| - 1], parse) + Parsed(ups[|ups| - 1], parse)
  }

  /** The records one uploaded file yields: none when its parse raises. */
  function Parsed(u: Upload, parse: Parser): seq<Record>
  {
    match parse(u.name, u.data)
    case Some(rs) => rs
    case None => []
  }

  /** Parsing is file by file: the records of two batches are those of the first
      followed by those of the second. */
  lemma {:induction false} ParsedRecordsAppend(a: seq<Upload>, b: seq<Upload>, parse: Parser)
    ensures ParsedRecords(a + b, parse) == ParsedRecords(a, parse) + ParsedRecords(b, parse)
  {
    if b != [] {
      var b' := b[..|b| - 1];
      assert (a + b)[..|a + b| - 1] == a + b';
      ParsedRecordsAppend(a, b', parse);
    } else {
      assert a + b == a;
    }
  }

  /** A file whose parse raises adds no records, and the files around it are
      still parsed. */
  lemma FailedParseAddsNothing(a: seq<Upload>, u: Upload, b: seq<Upload>, parse: Parser)
    requires parse(u.name, u.data).None?
    ensures ParsedRecords(a + [u] + b, parse) == ParsedRecords(a, parse) + ParsedRecords(b, parse)
  {
    assert ParsedRecords([u], parse) == [] by {
      assert [u][..0] == [];
    }
    ParsedRecordsAppend(a + [u], b, parse);
    ParsedRecordsAppend(a, [u], parse);
    calc {
      ParsedRecords(a + [u] + b, parse);
      ParsedRecords(a + [u], parse) + ParsedRecords(b, parse);
      ParsedRecords(a, parse) + ParsedRecords([u], parse) + ParsedRecords(b, parse);
      ParsedRecords(a, parse) + ParsedRecords(b, parse);
    }
  }

  // ----- file-name tests -----

  /** str.lower(), restricted to ASCII letters. */
  function LowerChar(c: char): char
  {
    if 'A' <= c <= 'Z' then (c as int + 32) as char else c
  }

  function Lower(s: string): string
  {
    seq(|s|, i requires 0 <= i < |s| => LowerChar(s[i]))
  }

  predicate EndsWith(s: string, suffix: string)
  {
    |suffix| <= |s| && s[|s| - |suffix|..] == suffix
  }

  /** `name.lower().endswith(".csv")`: the test both folder loaders apply. */
  predicate IsCsvName(name: FileName)
  {
    EndsWith(Lower(name), ".csv")
  }

  /** `name.endswith(".csv")`: the case-sensitive test app.py applies when it
      collects the names already known. */
  predicate HasCsvSuffix(name: FileName)
  {
    EndsWith(name, ".csv")
  }

  /** The case-sensitive test is strictly stronger than the case-insensitive one. */
  lemma CsvSuffixIsCsvName(name: FileName)
    ensures HasCsvSuffix(name) ==> IsCsvName(name)
  {
    if HasCsvSuffix(name) {
      var k := |name| - 4;
      assert name[k..] == ".csv";
      assert name[k] == '.' && name[k + 1] == 'c' && name[k + 2] == 's' && name[k + 3] == 'v';
      assert Lower(name)[k..] == ".csv";
    }
  }

  lemma UpperCaseCsvName()
    ensures IsCsvName("A.CSV") && !HasCsvSuffix("A.CSV")
  {
    assert Lower("A.CSV") == "a.csv";
    assert "A.CSV"[1..] == ".CSV";
  }

  // ----- folders -----

  /** CSVLoader(path).load(): reads the file and parses it. A file that is
      missing raises just as one that does not parse. */
  function ReadCsv(files: map<FileName, Bytes>, name: FileName, parse: Parser): Option<seq<Record>>
  {
    if name in files then parse(name, files[name]) else None
  }

  /** A directory: `names` is what os.listdir returns (its order is the one the
      loaders see), `files` the content of each file. */
  datatype Folder = Folder(names: seq<FileName>, files: map<FileName, Bytes>) {

    /** A real directory lists every file once, and only its files. */
    ghost predicate Valid()
    {
      && (forall i, j :: 0 <= i < j < |names| ==> names[i] != names[j])
      && (forall n :: n in files <==> n in names)
    }

    /** `open(path, "wb").write(data)`: creates the file or overwrites it; a new
        file is listed after the existing ones. */
    function Write(name: FileName, data: Bytes): (r: Folder)
      ensures Valid() ==> r.Valid()
      ensures r.files.Keys == files.Keys + {name}
      ensures r.files[name] == data
      ensures forall n :: n in files && n != name ==> r.files[n] == files[n]
    {
      Folder(if name in files then names else names + [name], files[name := data])
    }

    /** Writes a batch of uploads in order, each under its own name. */
    function WriteAll(ups: seq<Upload>): (r: Folder)
      ensures Valid() ==> r.Valid()
      ensures r.files.Keys == files.Keys + NameSet(ups)
    {
      if ups == [] then this
      else
        var u := ups[|ups| - 1];
        assert NameSet(ups) == NameSet(ups[..|ups| - 1]) + {u.name};
        WriteAll(ups[..|ups| - 1]).Write(u.name, u.data)
    }
  }

  /** A file not named by any upload of the batch is left exactly as it was. */
  lemma {:induction false} WriteAllUntouched(f: Folder, ups: seq<Upload>, n: FileName)
    requires n !in NameSet(ups)
    ensures n in f.WriteAll(ups).files <==> n in f.files
    ensures n in f.files ==> f.WriteAll(ups).files[n] == f.files[n]
  {
    if ups != [] {
      var init := ups[..|ups| - 1];
      assert Names(ups) == Names(init) + [ups[|ups| - 1].name];
      WriteAllUntouched(f, init, n);
    }
  }

  /** The file a batch leaves under a name holds the bytes of the LAST upload
      of that name: a later upload overwrites an earlier one. */
  lemma {:induction false} WriteAllLastWins(f: Folder, ups: seq<Upload>, k: nat)
    requires k < |ups|
    requires forall j :: k < j < |ups| ==> ups[j].name != ups[k].name
    ensures f.WriteAll(ups).files[ups[k].name] == ups[k].data
  {
    var init := ups[..|ups| - 1];
    if k < |ups| - 1 {
      WriteAllLastWins(f, init, k);
    }
  }
}
