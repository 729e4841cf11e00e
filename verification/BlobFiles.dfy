/** particles/corpus/blob_io.py, run by one writer alone: the shard directory changed in place by
    create, link, unlink and rename, and files hashed block by block. */
module BlobFiles {
  import opened Options
  import opened BlobProtocol

  const BLOCK: nat := 1048576

  datatype Result<T> = Ok(value: T) | Failed(error: Outcome)

  /** A shard directory of regular files. */
  class Shard {
    var names: map<string, Inode>
    var contents: map<Inode, Bytes>

    ghost predicate Valid() reads this {
      forall n :: n in names ==> names[n] in contents
    }

    /** The bytes a name leads to. */
    ghost function File(n: string): Option<Bytes> reads this {
      if n in names && names[n] in contents then Some(contents[names[n]]) else None
    }

    constructor ()
      ensures Valid() && names == map[] && contents == map[]
    {
      names, contents := map[], map[];
    }

    /** `_holds_blob`: the digest is taken a block at a time, never over the whole file at once. */
    method HoldsBlob(name: string, sha256: Bytes -> string) returns (holds: bool)
      requires Valid() && name in names
      ensures holds <==> sha256(File(name).value) == name
    {
      var file := contents[names[name]];
      var at, digested: Bytes := 0, [];
      while at < |file|
        invariant at <= |file| && digested == file[..at]
      {
        var next := if at + BLOCK < |file| then at + BLOCK else |file|;
        digested := digested + file[at..next];
        at := next;
      }
      assert file[..|file|] == file;
      holds := sha256(digested) == name;
    }

    /** `_install`, which tries again once after removing a name that leads to other bytes.
        `taken` is what `link` reports about a taken name on a filesystem without hard links. */
    method Install(temp: string, name: string, sha256: Bytes -> string, hardLinks: bool, taken: bool) returns (r: Result<()>)
      requires Valid() && temp in names && temp != name && sha256(File(temp).value) == name
      modifies this`names
      ensures Valid() && r.Ok?
      ensures File(name).Some? && sha256(File(name).value) == name
      ensures forall n :: n != name && n != temp ==> File(n) == old(File(n))
      ensures name in old(names) && sha256(old(File(name)).value) == name ==> File(name) == old(File(name))
    {
      for attempt := 0 to 2
        invariant Valid() && temp in names && names[temp] == old(names[temp])
        invariant forall n :: n != name ==> (n in names <==> n in old(names)) && (n in names ==> names[n] == old(names)[n])
        invariant attempt == 0 ==> names == old(names)
        invariant attempt > 0 ==> name !in names && !(name in old(names) && sha256(old(File(name)).value) == name)
        invariant attempt < 2
      {
        if name in names && (hardLinks || taken) { // FileExistsError
          var holds := HoldsBlob(name, sha256);
          if holds { return Ok(()); }
          if attempt == 0 { names := names - {name}; }
        } else if hardLinks {
          names := names[name := names[temp]];
          return Ok(());
        } else {
          if name in names {
            var holds := HoldsBlob(name, sha256);
            if holds { return Ok(()); }
          }
          names := names[name := names[temp]] - {temp};
          return Ok(());
        }
      }
      return Failed(Refused);
    }

    /** `write_blob` with nobody else in the shard: from any regular file at the name it returns with
        the name holding the blob, no other name changed, and no temporary file left behind. */
    method WriteBlob(name: string, content: Bytes, temp: string, inode: Inode, sha256: Bytes -> string, hardLinks: bool, taken: bool)
      returns (r: Result<()>)
      requires Valid() && sha256(content) == name && Injective(sha256)
      requires temp !in names && temp != name && inode !in contents
      modifies this
      ensures Valid() && r.Ok?
      ensures File(name) == Some(content)
      ensures forall n :: n != name ==> File(n) == old(File(n))
    {
      if name in names {
        var holds := HoldsBlob(name, sha256);
        if holds { return Ok(()); }
      }
      CreateTemp(temp, inode, content);
      r := Install(temp, name, sha256, hardLinks, taken);
      Unlink(temp);
    }

    /** The exclusive create, and the write of the whole content to it. */
    method CreateTemp(temp: string, inode: Inode, content: Bytes)
      requires Valid() && temp !in names && inode !in contents
      modifies this
      ensures Valid() && temp in names && File(temp) == Some(content)
      ensures forall n :: n != temp ==> File(n) == old(File(n)) && (n in names <==> n in old(names))
    {
      names, contents := names[temp := inode], contents[inode := []];
      contents := contents[inode := content];
    }

    /** `unlink(missing_ok=True)`. */
    method Unlink(temp: string)
      requires Valid()
      modifies this`names
      ensures Valid() && temp !in names && forall n :: n != temp ==> File(n) == old(File(n))
    {
      names := names - {temp};
    }

    /** `read_blob`: hashed in blocks, buffered, and hashed again. */
    method ReadBlob(name: string, sha256: Bytes -> string) returns (r: ReadOutcome)
      requires Valid()
      ensures r == (if name !in names then Missing
                    else if sha256(File(name).value) == name then Found(File(name).value) else BadHash)
    {
      if name !in names { return Missing; }
      var holds := HoldsBlob(name, sha256);
      if !holds { return BadHash; }
      var data := contents[names[name]];
      if sha256(data) != name { return BadHash; }
      return Found(data);
    }
  }
}
