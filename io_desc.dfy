/** The input and output descriptors of Matt.py (classes IoDesc, IDesc and
    ODesc), over an abstract host: the files that can be opened for reading
    with their text, the names that can be opened for writing, and the
    records sent to standard output (the diagnostics are not modelled). */
module IoDesc {

  /** IoDesc.ok, IoDesc.fileError and IoDesc.noMoreFiles. */
  datatype IoStatus = IoOk | FileError | NoMoreFiles

  /** Standard input or output, or a list of named files. */
  datatype Mode = Std | Files(names: seq<string>)

  /** The choice made by IoDesc.__init__: standard mode when the list is empty
      or its first name is empty, the named files otherwise. */
  function SelectMode(fileNamesArg: seq<string>): (m: Mode)
    ensures m.Std? <==> |fileNamesArg| == 0 || fileNamesArg[0] == ""
    ensures m.Files? ==> m.names == fileNamesArg && m.names[0] != ""
  {
    if |fileNamesArg| == 0 || fileNamesArg[0] == "" then Std else Files(fileNamesArg)
  }

  /** The names a descriptor walks through; in standard mode the list keeps its
      empty default. */
  function FileNames(m: Mode): (names: seq<string>) {
    if m.Files? then m.names else []
  }

  class Host {
    /** The files that open for reading, with their text. */
    var files: map<string, string>
    /** The names that open for writing (mode "w" or "a"). */
    const writable: set<string>
    /** The records written to standard output. */
    var stdout: string

    constructor (files: map<string, string>, writable: set<string>)
      ensures this.files == files && this.writable == writable && stdout == ""
    {
      this.files := files;
      this.writable := writable;
      this.stdout := "";
    }
  }

  /** The input descriptor: a cursor over the file names. */
  class IDesc {
    const mode: Mode
    var fileNameIndex: nat

    ghost predicate Valid()
      reads this
    {
      fileNameIndex <= |FileNames(mode)|
    }

    /** The names not read yet. */
    ghost function Remaining(): seq<string>
      reads this
      requires Valid()
    {
      FileNames(mode)[fileNameIndex..]
    }

    constructor (fileNamesArg: seq<string>)
      ensures mode == SelectMode(fileNamesArg) && fileNameIndex == 0
      ensures Valid() && Remaining() == FileNames(mode)
    {
      mode := SelectMode(fileNamesArg);
      fileNameIndex := 0;
    }

    /** Opens the next file. Fails every time in standard mode, reports the end
        of the list once the index reaches its length, fails without moving on
        when the file does not open, and otherwise returns the file's name and
        text and moves on by one. */
    method Read(host: Host) returns (status: IoStatus, name: string, content: string)
      requires Valid()
      modifies this
      ensures Valid()
      ensures mode.Std? ==> status == FileError
      ensures mode.Files? ==> (status == NoMoreFiles <==> old(fileNameIndex) == |mode.names|)
      ensures status == IoOk ==>
        && old(fileNameIndex) < |FileNames(mode)|
        && name == FileNames(mode)[old(fileNameIndex)]
        && name in host.files && content == host.files[name]
        && fileNameIndex == old(fileNameIndex) + 1
      ensures status != IoOk ==> name == "" && content == "" && fileNameIndex == old(fileNameIndex)
      ensures status == FileError && mode.Files? ==>
        old(fileNameIndex) < |mode.names| && mode.names[old(fileNameIndex)] !in host.files
      ensures status == IoOk <==> old(Remaining()) != [] && old(Remaining())[0] in host.files
      ensures status == IoOk ==> name == old(Remaining())[0] && Remaining() == old(Remaining())[1..]
      ensures status == NoMoreFiles <==> old(Remaining()) == [] && mode.Files?
    {
      if mode.Std? {
        return FileError, "", "";
      }
      if fileNameIndex == |mode.names| {
        return NoMoreFiles, "", "";
      }
      var fname := mode.names[fileNameIndex];
      if fname !in host.files {
        return FileError, "", "";
      }
      content := host.files[fname];
      fileNameIndex := fileNameIndex + 1;
      return IoOk, mode.names[fileNameIndex - 1], content;
    }
  }

  /** The output descriptor: standard output, or one named file that the first
      successful write truncates and later writes append to. */
  class ODesc {
    const mode: Mode
    var firstWriteDone: bool
    /** Everything written successfully through this descriptor. */
    ghost var written: string

    /** In named-file mode the destination holds exactly what was written. */
    ghost predicate Valid(host: Host)
      reads this, host
    {
      && (mode.Files? ==> |mode.names| == 1)
      && (mode.Files? && !firstWriteDone ==> written == "")
      && (mode.Files? && firstWriteDone ==>
            mode.names[0] in host.files && host.files[mode.names[0]] == written)
    }

    constructor (fileNamesArg: string)
      ensures mode == SelectMode([fileNamesArg])
      ensures mode.Files? ==> mode.names == [fileNamesArg]
      ensures !firstWriteDone && written == ""
      ensures forall host: Host :: Valid(host)
    {
      mode := SelectMode([fileNamesArg]);
      firstWriteDone := false;
      written := "";
    }

    method Write(host: Host, outString: string) returns (status: IoStatus)
      requires Valid(host)
      modifies this, host
      ensures Valid(host)
      ensures status == IoOk || status == FileError
      ensures mode.Std? ==>
        && status == IoOk
        && host.stdout == old(host.stdout) + outString
        && host.files == old(host.files)
        && written == old(written) + outString
      ensures mode.Files? ==> host.stdout == old(host.stdout)
      ensures mode.Files? ==> (status == IoOk <==> mode.names[0] in host.writable)
      ensures mode.Files? && status == IoOk ==>
        && firstWriteDone
        && written == old(written) + outString
        && host.files == old(host.files)[mode.names[0] := written]
      ensures mode.Files? && status == IoOk && !old(firstWriteDone) ==>
        host.files[mode.names[0]] == outString
      ensures mode.Files? && status == IoOk && old(firstWriteDone) ==>
        host.files[mode.names[0]] == old(host.files[mode.names[0]]) + outString
      ensures status == FileError ==>
        host.files == old(host.files) && firstWriteDone == old(firstWriteDone) && written == old(written)
    {
      if mode.Std? {
        host.stdout := host.stdout + outString;
        written := written + outString;
        return IoOk;
      }
      var dest := mode.names[0];
      if dest !in host.writable {
        return FileError;
      }
      if firstWriteDone {
        host.files := host.files[dest := host.files[dest] + outString];
      } else {
        host.files := host.files[dest := outString];
        firstWriteDone := true;
      }
      written := written + outString;
      return IoOk;
    }
  }
}
