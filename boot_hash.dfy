/** copyBootHash and copy_system_snapshot: the identifier of the booted system, read from the
    device tree's /chosen node. While the flag below is set, a "root-snapshot-name" property
    is passed through as the snapshot name; otherwise the digest in "boot-manifest-hash" is rendered in hex behind the
    "com.apple.os.update-" prefix. The process-wide flag READ_NEW_IORegistryEntry picks the
    rendering: it starts set and is cleared the first time an opened node lacks
    "root-snapshot-name". */
module BootHash {
  import opened Bytes
  import opened Hex

  /** What CFGetTypeID says of a property: CFData or anything else. */
  datatype TypeTag = DataType | OtherType

  /** A property value of the device tree: its type and, for data, its bytes. */
  datatype Blob = Blob(tag: TypeTag, bytes: seq<byte>)

  /** What the /chosen node offers: whether the registry entry could be opened at all, and the
      two properties, each absent (nil) or present. */
  datatype Chosen = Chosen(valid: bool, rootSnapshotName: Option<Blob>, bootManifestHash: Option<Blob>)

  /** APPLESNAP. */
  function AppleSnapPrefix(): (p: seq<byte>)
    ensures |p| == 20 && IsCString(p)
  {
    var p := Ascii("com.apple.os.update-");
    assert p == [99, 111, 109, 46, 97, 112, 112, 108, 101, 46, 111, 115, 46, 117, 112, 100, 97, 116, 101, 45];
    p
  }

  // ---------------------------------------------------------------------------------------
  // The code as a function of the flag before the call

  /** The flag after a call: it falls to false when the node is open but has no
      "root-snapshot-name", and nothing ever raises it again. */
  function NextFlag(flag: bool, chosen: Chosen): (next: bool)
    ensures next ==> flag
  {
    if chosen.valid && chosen.rootSnapshotName.None? then false else flag
  }

  /** The property copyBootHash goes on with: "root-snapshot-name" when present, otherwise
      "boot-manifest-hash". */
  function ReadBlob(chosen: Chosen): Option<Blob>
  {
    if chosen.rootSnapshotName.Some? then chosen.rootSnapshotName else chosen.bootManifestHash
  }

  /** The string copyBootHash returns when called with the flag at `flag`, where `utf8` is the
      C string CFStringGetCString makes of a blob read as UTF-8: None when the node cannot be
      opened, when neither property is present, or when the property is not data; otherwise the
      property decoded as text if the flag (as the call leaves it) is still set, and its bytes in
      hex if not. */
  function BootHashOf(flag: bool, chosen: Chosen, utf8: seq<byte> -> seq<byte>): Option<seq<byte>>
  {
    if !chosen.valid then None
    else match ReadBlob(chosen)
      case None => None
      case Some(blob) =>
        if blob.tag != DataType then None
        else if NextFlag(flag, chosen) then Some(utf8(blob.bytes))
        else Some(Encode(blob.bytes))
  }

  /** The string copy_system_snapshot returns when called with the flag at `flag`: the boot hash
      as it is while the flag stays set, and otherwise the prefix followed by the boot hash. */
  function SystemSnapshotOf(flag: bool, chosen: Chosen, utf8: seq<byte> -> seq<byte>): Option<seq<byte>>
  {
    var hash := BootHashOf(flag, chosen, utf8);
    if NextFlag(flag, chosen) || hash.None? then hash
    else Some(AppleSnapPrefix() + hash.value)
  }

  // ---------------------------------------------------------------------------------------
  // The flag-free description: a tagged result and a pure rendering

  /** The two representations of the boot identifier. */
  datatype BootId = Modern(name: seq<byte>) | Legacy(digest: seq<byte>)

  /** Which representation the node offers, without any process state. */
  function Resolve(chosen: Chosen, utf8: seq<byte> -> seq<byte>): Option<BootId>
  {
    if !chosen.valid then None
    else if chosen.rootSnapshotName.Some? then
      (if chosen.rootSnapshotName.value.tag == DataType
       then Some(Modern(utf8(chosen.rootSnapshotName.value.bytes))) else None)
    else if chosen.bootManifestHash.Some? && chosen.bootManifestHash.value.tag == DataType then
      Some(Legacy(chosen.bootManifestHash.value.bytes))
    else None
  }

  /** The identifier string of a representation: the name itself, or the prefix and the digest
      in uppercase hex. */
  function Identifier(id: BootId): (s: seq<byte>)
    ensures id.Legacy? ==> |s| == |AppleSnapPrefix()| + 2 * |id.digest|
  {
    match id
    case Modern(name) => name
    case Legacy(digest) => AppleSnapPrefix() + Encode(digest)
  }

  /** In a process whose flag is still set, copy_system_snapshot returns exactly the identifier
      of the representation the node offers, or NULL when it offers none. */
  lemma FreshProcessMatchesResolve(chosen: Chosen, utf8: seq<byte> -> seq<byte>)
    ensures var r := Resolve(chosen, utf8);
      SystemSnapshotOf(true, chosen, utf8) == if r.None? then None else Some(Identifier(r.value))
  {
  }

  /** For a node that does not change, calling again gives the same identifier and leaves the
      flag where the first call left it. */
  lemma RepeatedCallAgrees(flag: bool, chosen: Chosen, utf8: seq<byte> -> seq<byte>)
    ensures NextFlag(NextFlag(flag, chosen), chosen) == NextFlag(flag, chosen)
    ensures SystemSnapshotOf(NextFlag(flag, chosen), chosen, utf8) == SystemSnapshotOf(flag, chosen, utf8)
  {
  }

  /** Once a call has cleared the flag, a "root-snapshot-name" property is no longer passed
      through: its bytes are rendered in hex behind the prefix. */
  lemma StaleFlagHexesRootName(chosen: Chosen, utf8: seq<byte> -> seq<byte>)
    requires chosen.valid && chosen.rootSnapshotName.Some? && chosen.rootSnapshotName.value.tag == DataType
    ensures SystemSnapshotOf(false, chosen, utf8) ==
      Some(AppleSnapPrefix() + Encode(chosen.rootSnapshotName.value.bytes))
  {
  }

  /** No identifier without a readable data property, whatever the flag. */
  lemma NoPropertyNoIdentifier(flag: bool, chosen: Chosen, utf8: seq<byte> -> seq<byte>)
    ensures SystemSnapshotOf(flag, chosen, utf8).None? <==>
      !chosen.valid || ReadBlob(chosen).None? || ReadBlob(chosen).value.tag != DataType
  {
  }

  /** A legacy identifier is never mistaken for a name: after the prefix it is all uppercase
      hex digits, and those decode back to the digest. */
  lemma LegacyIdentifierDecodes(digest: seq<byte>)
    ensures var s := Identifier(Legacy(digest));
      && s[..|AppleSnapPrefix()|] == AppleSnapPrefix()
      && (forall i :: |AppleSnapPrefix()| <= i < |s| ==> IsUpperHexDigit(s[i]))
      && Decode(s[|AppleSnapPrefix()|..]) == Some(digest)
  {
    var s := Identifier(Legacy(digest));
    var p := AppleSnapPrefix();
    assert s[|p|..] == Encode(digest);
    EncodeIsUpperHex(digest);
    forall i | |p| <= i < |s| ensures IsUpperHexDigit(s[i]) {
      assert s[i] == Encode(digest)[i - |p|];
    }
    DecodeEncode(digest);
  }

  /** The worked examples, at the entry point of a fresh process: a node whose
      "root-snapshot-name" reads as "abc.snapshot" gives that name unprefixed, and a node that
      offers only the digest 00 11 AB gives it in hex behind the prefix. */
  lemma SystemSnapshotExamples(name: seq<byte>, utf8: seq<byte> -> seq<byte>)
    requires utf8(name) == Ascii("abc.snapshot")
    ensures SystemSnapshotOf(true, Chosen(true, Some(Blob(DataType, name)), None), utf8) ==
      Some(Ascii("abc.snapshot"))
    ensures SystemSnapshotOf(true, Chosen(true, None, Some(Blob(DataType, [0x00, 0x11, 0xAB]))), utf8) ==
      Some(Ascii("com.apple.os.update-0011AB"))
  {
    EncodeExample();
    assert Ascii("com.apple.os.update-0011AB") == AppleSnapPrefix() + Ascii("0011AB");
  }

  // ---------------------------------------------------------------------------------------
  // The process and its flag

  /** The process, whose only state here is READ_NEW_IORegistryEntry. */
  class Process {
    var readNewIORegistryEntry: bool

    /** At load time the flag is set. */
    constructor ()
      ensures readNewIORegistryEntry
    {
      readNewIORegistryEntry := true;
    }

    /** copyBootHash(): opens /chosen, reads "root-snapshot-name" or, clearing the flag,
        "boot-manifest-hash", checks that it is data, and renders it: as text while the flag is
        set, in hex into a calloc'd buffer of twice its length plus one otherwise. */
    method CopyBootHash(chosen: Chosen, utf8: seq<byte> -> seq<byte>) returns (hash: Option<seq<byte>>)
      modifies this
      ensures readNewIORegistryEntry == NextFlag(old(readNewIORegistryEntry), chosen)
      ensures hash == BootHashOf(old(readNewIORegistryEntry), chosen, utf8)
    {
      if !chosen.valid {
        // the /chosen node cannot be opened
        return None;
      }
      var blob := chosen.rootSnapshotName;
      if blob.None? {
        readNewIORegistryEntry := false;
        blob := chosen.bootManifestHash;
      }
      if blob.None? {
        // neither property is present
        return None;
      }
      if blob.value.tag != DataType {
        // the property is not data
        return None;
      }
      var data := blob.value.bytes;
      if readNewIORegistryEntry {
        hash := Some(utf8(data));
      } else {
        var length := |data| * 2 + 1;
        var manifestHash := new byte[length](_ => 0);
        var ret := Sha1ToStr(data, manifestHash);
        if ret == ErrSuccess {
          hash := Some(manifestHash[..|data| * 2]);
        } else {
          // the buffer was refused
          hash := None;
        }
      }
    }

    /** copy_system_snapshot(): the boot hash as it is while the flag stays set; otherwise
        NULL for NULL, or APPLESNAP followed by the boot hash. */
    method CopySystemSnapshot(chosen: Chosen, utf8: seq<byte> -> seq<byte>) returns (snapshot: Option<seq<byte>>)
      modifies this
      ensures readNewIORegistryEntry == NextFlag(old(readNewIORegistryEntry), chosen)
      ensures snapshot == SystemSnapshotOf(old(readNewIORegistryEntry), chosen, utf8)
    {
      var hash := CopyBootHash(chosen, utf8);
      if readNewIORegistryEntry {
        return hash;
      }
      if hash.None? {
        return None;
      }
      snapshot := Some(AppleSnapPrefix() + hash.value);
    }
  }
}
