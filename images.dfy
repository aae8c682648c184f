/**
 * The image directory (internals/handlers/imageHandler.go) as a map from file name
 * to contents.  An upload is written under a fresh uuid name while its bytes are
 * fed to MD5, then renamed to the lowercase hex of the digest.  MD5 itself is a
 * function the directory is given, only known to yield 16 bytes.
 */
module Images {
  import opened Wrappers
  import opened Http
  import opened Hex

  /** An MD5 sum. */
  type Digest = d: seq<byte> | |d| == 16 witness [0, 0, 0, 0, 0, 0, 0, 0, 0, 0, 0, 0, 0, 0, 0, 0]

  /** The shape of uuid.NewString(): 36 characters with dashes at 8, 13, 18 and 23. */
  predicate UuidShaped(s: string)
  {
    |s| == 36 && s[8] == '-' && s[13] == '-' && s[18] == '-' && s[23] == '-'
  }

  /** The name an upload is finally stored under: the hex of its digest. */
  function ContentKey(md5: seq<byte> -> Digest, data: seq<byte>): (key: string)
    ensures |key| == 32
    ensures forall i :: 0 <= i < |key| ==> IsLowerHexChar(key[i])
  {
    EncodeToString(md5(data))
  }

  /** A temporary uuid name is never a content key, so the rename always moves the file. */
  lemma UuidIsNoContentKey(tmp: string, md5: seq<byte> -> Digest, data: seq<byte>)
    requires UuidShaped(tmp)
    ensures tmp != ContentKey(md5, data)
  {
  }

  /** Two contents share a key exactly when their MD5 sums collide. */
  lemma ContentKeyCollision(md5: seq<byte> -> Digest, a: seq<byte>, b: seq<byte>)
    ensures ContentKey(md5, a) == ContentKey(md5, b) <==> md5(a) == md5(b)
  {
    EncodeInjective(md5(a), md5(b));
  }

  /** Different contents whose MD5 sums differ are stored under different keys. */
  lemma DistinctContentDistinctKeys(md5: seq<byte> -> Digest, a: seq<byte>, b: seq<byte>)
    requires md5(a) != md5(b)
    ensures ContentKey(md5, a) != ContentKey(md5, b)
  {
    ContentKeyCollision(md5, a, b);
  }

  /** The directory after a successful upload: `tmp` renamed to `key`, overwriting it. */
  function Finalized(files: map<string, seq<byte>>, tmp: string, key: string, data: seq<byte>): (r: map<string, seq<byte>>)
    ensures key in r && r[key] == data
    ensures key != tmp ==> tmp !in r
    ensures forall k :: k != key && k != tmp ==> (k in r <==> k in files) && (k in files ==> r[k] == files[k])
  {
    (files - {tmp})[key := data]
  }

  /** After an upload the key holds the bytes, the temporary name is gone, all else is kept. */
  lemma FinalizedEffect(files: map<string, seq<byte>>, tmp: string, md5: seq<byte> -> Digest, data: seq<byte>)
    requires UuidShaped(tmp)
    ensures var key := ContentKey(md5, data);
      var after := Finalized(files, tmp, key, data);
      && key in after && after[key] == data
      && tmp !in after
      && forall k :: k != key && k != tmp ==> (k in after <==> k in files) && (k in files ==> after[k] == files[k])
  {
    UuidIsNoContentKey(tmp, md5, data);
  }

  /**
   * Uploading the same bytes again, under a fresh temporary name, leaves the directory
   * exactly as it was: one slot per content.
   */
  lemma SameContentOneSlot(files: map<string, seq<byte>>, tmp1: string, tmp2: string,
                           md5: seq<byte> -> Digest, data: seq<byte>)
    requires UuidShaped(tmp1) && UuidShaped(tmp2)
    requires tmp2 !in files
    ensures var key := ContentKey(md5, data);
      var once := Finalized(files, tmp1, key, data);
      Finalized(once, tmp2, key, data) == once
  {
    var key := ContentKey(md5, data);
    UuidIsNoContentKey(tmp1, md5, data);
    var once := Finalized(files, tmp1, key, data);
    assert tmp2 !in once by {
      UuidIsNoContentKey(tmp2, md5, data);
    }
  }

  /** `Get` removes one trailing '/', if there is one, and nothing else. */
  function StripTrailingSlash(path: string): (key: string)
    ensures |path| > 0 && path[|path| - 1] == '/' ==> key + "/" == path
    ensures !(|path| > 0 && path[|path| - 1] == '/') ==> key == path
  {
    if |path| > 0 && path[|path| - 1] == '/' then path[..|path| - 1] else path
  }

  /** `key/` and `key` find the same file; so does `key` itself when it has no trailing '/'. */
  lemma StripTrailingSlashAppended(key: string)
    ensures StripTrailingSlash(key + "/") == key
  {
    assert (key + "/")[..|key|] == key;
  }

  /** A name of the shape a digest name has: 32 lowercase hex characters. */
  predicate IsDigestName(k: string)
  {
    |k| == 32 && forall i :: 0 <= i < 32 ==> IsLowerHexChar(k[i])
  }

  /** Content addressing: every digest-shaped name holds bytes whose key is that name. */
  predicate ContentAddressed(files: map<string, seq<byte>>, md5: seq<byte> -> Digest)
  {
    forall k :: k in files && IsDigestName(k) ==> k == ContentKey(md5, files[k])
  }

  /** A completed upload keeps the directory content addressed. */
  lemma FinalizedContentAddressed(files: map<string, seq<byte>>, tmp: string, md5: seq<byte> -> Digest, data: seq<byte>)
    requires ContentAddressed(files, md5)
    ensures ContentAddressed(Finalized(files, tmp, ContentKey(md5, data), data), md5)
  {
  }

  /** A temporary file, complete or partial, never breaks content addressing. */
  lemma TemporaryContentAddressed(files: map<string, seq<byte>>, tmp: string, md5: seq<byte> -> Digest, data: seq<byte>)
    requires ContentAddressed(files, md5) && UuidShaped(tmp)
    ensures ContentAddressed(files[tmp := data], md5)
  {
  }

  /** Removing a name never breaks content addressing. */
  lemma RemovalContentAddressed(files: map<string, seq<byte>>, name: string, md5: seq<byte> -> Digest)
    requires ContentAddressed(files, md5)
    ensures ContentAddressed(files - {name}, md5)
  {
  }

  /** How the file system lets an upload down, if it does. */
  datatype Fault =
    | NoFault
    | CreateFails              // os.Create fails
    | CopyFails(written: nat)  // io.Copy fails after `written` bytes
    | RenameFails              // os.Rename fails

  class ImageDir {
    var files: map<string, seq<byte>>
    const md5: seq<byte> -> Digest

    constructor (md5: seq<byte> -> Digest)
      ensures files == map[] && this.md5 == md5
      ensures ContentAddressed(files, md5)
    {
      files := map[];
      this.md5 := md5;
    }

    /**
     * Upload.  `upload` is the form file, None when the form cannot be read; `tmp` is
     * the uuid drawn for the temporary name.  Only a complete, renamed upload answers
     * 201 with its key; every failure leaves the digest names as they were, possibly
     * with an orphaned temporary file.
     */
    method Add(upload: Option<seq<byte>>, tmp: string, fault: Fault) returns (status: Status, key: Option<string>)
      requires UuidShaped(tmp)
      modifies this
      ensures status == StatusCreated <==> upload.Some? && fault == NoFault
      ensures status != StatusCreated ==> status == StatusInternalServerError && key == None
      ensures upload.None? || fault == CreateFails ==> files == old(files)
      ensures upload.Some? && fault.CopyFails? ==>
                var data := upload.value;
                files == old(files)[tmp := data[..if fault.written < |data| then fault.written else |data|]]
      ensures upload.Some? && fault == RenameFails ==> files == old(files)[tmp := upload.value]
      ensures upload.Some? && fault == NoFault ==>
                && key == Some(ContentKey(md5, upload.value))
                && files == Finalized(old(files), tmp, key.value, upload.value)
      ensures old(ContentAddressed(files, md5)) ==> ContentAddressed(files, md5)
    {
      if upload.None? {
        return StatusInternalServerError, None;
      }
      var data := upload.value;
      if fault == CreateFails {
        return StatusInternalServerError, None;
      }
      files := files[tmp := []];
      // io.Copy into the MultiWriter: each chunk goes to the file and to the hash state
      var hashed: seq<byte> := [];
      var stop := if fault.CopyFails? && fault.written < |data| then fault.written else |data|;
      var i := 0;
      while i < stop
        invariant 0 <= i <= stop <= |data|
        invariant tmp in files && files == old(files)[tmp := data[..i]]
        invariant hashed == data[..i]
      {
        files := files[tmp := files[tmp] + [data[i]]];
        hashed := hashed + [data[i]];
        i := i + 1;
        assert data[..i] == data[..i - 1] + [data[i - 1]];
      }
      if fault.CopyFails? {
        return StatusInternalServerError, None;
      }
      assert hashed == data;
      var sumStr := EncodeToString(md5(hashed));
      if fault == RenameFails {
        return StatusInternalServerError, None;
      }
      files := (files - {tmp})[sumStr := files[tmp]];
      return StatusCreated, Some(sumStr);
    }

    /** Serve the file named by `path` after one trailing '/' is removed; None is 404. */
    method Get(path: string) returns (content: Option<seq<byte>>)
      ensures content.Some? <==> StripTrailingSlash(path) in files
      ensures content.Some? ==> content.value == files[StripTrailingSlash(path)]
    {
      var p := path;
      var last := |p| - 1;
      if last >= 0 && p[last] == '/' {
        p := p[..last];
      }
      if p in files {
        return Some(files[p]);
      }
      return None;
    }

    /** Remove file `id`: a missing or empty id, or an absent file, is an error. */
    method Delete(id: Option<string>) returns (status: Status)
      modifies this
      ensures id.None? || id.value == "" || id.value !in old(files) ==>
                status == StatusInternalServerError && files == old(files)
      ensures id.Some? && id.value != "" && id.value in old(files) ==>
                status == StatusNoContent && files == old(files) - {id.value}
      ensures old(ContentAddressed(files, md5)) ==> ContentAddressed(files, md5)
    {
      if id.None? || id.value == "" {
        return StatusInternalServerError;
      }
      if id.value !in files {
        return StatusInternalServerError;
      }
      files := files - {id.value};
      return StatusNoContent;
    }
  }

  /** An uploaded image reads back byte for byte, with or without a trailing '/'. */
  lemma UploadThenGet(files: map<string, seq<byte>>, tmp: string, md5: seq<byte> -> Digest, data: seq<byte>)
    requires UuidShaped(tmp)
    ensures var key := ContentKey(md5, data);
      var after := Finalized(files, tmp, key, data);
      && StripTrailingSlash(key) in after && after[StripTrailingSlash(key)] == data
      && StripTrailingSlash(key + "/") in after && after[StripTrailingSlash(key + "/")] == data
  {
    var key := ContentKey(md5, data);
    assert key[|key| - 1] != '/';
    StripTrailingSlashAppended(key);
  }

  /** After a delete the key is gone, so a later Get answers 404. */
  lemma DeleteThenGet(files: map<string, seq<byte>>, key: string)
    requires key != "" && key[|key| - 1] != '/'
    ensures StripTrailingSlash(key) !in files - {key}
    ensures StripTrailingSlash(key + "/") !in files - {key}
  {
    StripTrailingSlashAppended(key);
  }

  /**
   * A client of the directory: the same bytes uploaded twice give one key and one
   * file, which reads back intact and is gone after a delete.
   */
  method ImageScenario(md5: seq<byte> -> Digest, data: seq<byte>)
  {
    var dir := new ImageDir(md5);
    var t1 := "00000000-0000-0000-0000-000000000001";
    var t2 := "00000000-0000-0000-0000-000000000002";
    var status, key1 := dir.Add(Some(data), t1, NoFault);
    FinalizedEffect(map[], t1, md5, data);
    var once := dir.files;
    var key2;
    status, key2 := dir.Add(Some(data), t2, NoFault);
    SameContentOneSlot(map[], t1, t2, md5, data);
    assert key1 == key2 && dir.files == once && dir.files.Keys == {key1.value};
    UploadThenGet(map[], t1, md5, data);
    var content := dir.Get(key1.value + "/");
    assert content == Some(data);
    status := dir.Delete(key1);
    assert status == StatusNoContent;
    DeleteThenGet(once, key1.value);
    content := dir.Get(key1.value);
    assert content == None;
  }
}
