/** A CSV file on disk, seen as whether it exists and the rows it holds. */
module Files {

  class CsvFile {
    /** `os.path.isfile(path)`. */
    var isFile: bool
    /** The records of the file, one `seq<string>` per row written. */
    var rows: seq<seq<string>>

    /** A file that does not exist holds no rows. */
    ghost predicate Valid()
      reads this
    {
      !isFile ==> rows == []
    }

    /** A path with no file behind it. */
    constructor Missing()
      ensures Valid() && !isFile && rows == []
    {
      isFile := false;
      rows := [];
    }

    /** A file that already holds `existing`. */
    constructor Existing(existing: seq<seq<string>>)
      ensures Valid() && isFile && rows == existing
    {
      isFile := true;
      rows := existing;
    }

    /** `open(path, mode="a")`: creates a missing file and keeps an existing one's rows. */
    method OpenAppend()
      requires Valid()
      modifies this
      ensures Valid() && isFile && rows == old(rows)
    {
      isFile := true;
    }

    /** `open(path, mode="w")`: creates the file or truncates it. */
    method OpenWrite()
      modifies this
      ensures Valid() && isFile && rows == []
    {
      isFile := true;
      rows := [];
    }

    /** `writer.writerow(row)` on a file opened for writing: one row at the end. */
    method WriteRow(row: seq<string>)
      requires Valid() && isFile
      modifies this
      ensures Valid() && isFile && rows == old(rows) + [row]
    {
      rows := rows + [row];
    }
  }
}
