/**
 * The SD card as a store of named files, each a sequence of lines. Whether
 * the card lets a file be opened, and whether the driver's remove call
 * succeeds, are inputs: the driver itself is not part of this model.
 */
module SdStore {
  type FileSystem = map<string, seq<string>>

  /** The lines of `name`; a file that does not exist has none. */
  function Lines(fs: FileSystem, name: string): seq<string> {
    if name in fs then fs[name] else []
  }

  /** Opening `name` for writing creates it when absent; `line` goes after all its existing lines. */
  function Appended(fs: FileSystem, name: string, line: string): (r: FileSystem)
    ensures r.Keys == fs.Keys + {name}
    ensures r[name] == Lines(fs, name) + [line]
    ensures forall other :: other in fs && other != name ==> r[other] == fs[other]
  {
    fs[name := Lines(fs, name) + [line]]
  }

  /** The store without `name`; every other file keeps its lines. */
  function Removed(fs: FileSystem, name: string): (r: FileSystem)
    ensures r.Keys == fs.Keys - {name}
    ensures forall other :: other in r ==> r[other] == fs[other]
  {
    fs - {name}
  }

  class SdCard {
    var files: FileSystem

    constructor (initial: FileSystem)
      ensures files == initial
    {
      files := initial;
    }

    /** `sdExists`: 1 when the file is on the card, 0 otherwise; it changes nothing. */
    function Exists(fileName: string): (r: int)
      reads this
      ensures r == 1 <==> fileName in files
      ensures r == 0 <==> fileName !in files
    {
      if fileName in files then 1 else 0
    }

    /**
     * `sdWrite`: when the file opens, one line is appended to that file only,
     * the file is closed and 1 is returned; otherwise nothing changes and 0
     * is returned.
     */
    method Write(fileName: string, reading: string, cardReady: bool) returns (status: int)
      modifies this
      ensures status == (if cardReady then 1 else 0)
      ensures files == (if cardReady then Appended(old(files), fileName, reading) else old(files))
    {
      if cardReady {
        files := Appended(files, fileName, reading);
        status := 1;
      } else {
        status := 0;
      }
    }

    /**
     * `sdRead`: opening for reading needs the file to exist. When it opens,
     * everything in it is streamed out, line by line, and 1 is returned;
     * otherwise nothing is emitted and 0 is returned.
     */
    method Read(fileName: string, cardReady: bool) returns (status: int, output: seq<string>)
      ensures status == (if cardReady && fileName in files then 1 else 0)
      ensures status == 1 ==> output == files[fileName]
      ensures status == 0 ==> output == []
    {
      output := [];
      if cardReady && fileName in files {
        var content := files[fileName];
        var i := 0;
        while i < |content|
          invariant 0 <= i <= |content|
          invariant output == content[..i]
        {
          output := output + [content[i]];
          i := i + 1;
        }
        status := 1;
      } else {
        status := 0;
      }
    }

    /**
     * `sdFileDelete`: an absent file gives 0 and no change. A present file
     * gives 1 whatever the driver's remove reports; the file is gone exactly
     * when that remove succeeded.
     */
    method FileDelete(fileName: string, removeSucceeds: bool) returns (status: int)
      modifies this
      ensures status == (if fileName in old(files) then 1 else 0)
      ensures files == (if fileName in old(files) && removeSucceeds then Removed(old(files), fileName) else old(files))
    {
      if Exists(fileName) != 0 {
        if removeSucceeds {
          files := Removed(files, fileName);
        }
        status := 1;
      } else {
        status := 0;
      }
    }
  }

  /** Two appends to one file leave both lines at its end, in the order they were written. */
  lemma AppendsKeepOrder(fs: FileSystem, name: string, a: string, b: string)
    ensures Lines(Appended(Appended(fs, name, a), name, b), name) == Lines(fs, name) + [a, b]
  {
  }

  /** Deleting and then deleting again: the second call finds nothing and changes nothing. */
  method DeleteTwice(card: SdCard, fileName: string) returns (first: int, second: int)
    requires fileName in card.files
    modifies card
    ensures first == 1 && second == 0
    ensures card.files == Removed(old(card.files), fileName)
  {
    first := card.FileDelete(fileName, true);
    second := card.FileDelete(fileName, true);
  }

  /** A record written and then read back appears as the file's last line. */
  method WriteThenRead(card: SdCard, fileName: string, line: string) returns (output: seq<string>)
    modifies card
    ensures output == Lines(old(card.files), fileName) + [line]
  {
    var written := card.Write(fileName, line, true);
    var status;
    status, output := card.Read(fileName, true);
  }
}
