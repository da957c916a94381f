/** Directory listings and file chunks as blobs (internal/repr, internal/fs). */
module Listing {
  import opened Wrappers
  import opened Scores
  import opened Times

  /** The type field of an entry, an unsigned number of which seven values are named. */
  type TypeCode = nat

  const TYPE_FILE: TypeCode := 0
  const TYPE_DIRECTORY: TypeCode := 1
  const TYPE_SYMLINK: TypeCode := 2
  const TYPE_BLOCK_DEVICE: TypeCode := 3
  const TYPE_CHAR_DEVICE: TypeCode := 4
  const TYPE_NAMED_PIPE: TypeCode := 5
  const TYPE_SOCKET: TypeCode := 6

  datatype FileInfo = FileInfo(
    typ: TypeCode,
    name: string,
    permissions: nat,
    uid: nat,
    username: Option<string>,
    gid: nat,
    groupname: Option<string>,
    mtime: Time,
    size: nat,
    containingDevice: int,
    inode: nat,
    scores: seq<Score>,
    hardLinkTarget: Option<string>,
    target: string,
    deviceNumber: int)

  // ---- The protocol buffer messages ----

  datatype ProtoType = PFile | PDirectory | PSymlink | PBlockDevice | PCharDevice | PNamedPipe | POther(code: int)

  /** What the type of a message reads as when it is absent. */
  const TYPE_UNKNOWN := -1

  datatype FileInfoProto = FileInfoProto(
    typ: Option<ProtoType>,
    permissions: Option<nat>,
    uid: Option<nat>,
    username: Option<string>,
    gid: Option<nat>,
    groupname: Option<string>,
    name: Option<string>,
    hardLinkTarget: Option<string>,
    mtime: Option<Time>,
    size: Option<nat>,
    inode: Option<nat>,
    blob: seq<Bytes>,
    target: Option<string>,
    deviceNumber: Option<int>)

  /** The wire format of a listing message; marshalling may fail. */
  datatype Wire = Wire(marshal: seq<FileInfoProto> -> Option<Bytes>, unmarshal: Bytes -> Option<seq<FileInfoProto>>)

  /** All that is assumed of the library: it reads back what it has written. */
  ghost predicate WireSound(wire: Wire) {
    forall ps :: wire.marshal(ps).Some? ==> wire.unmarshal(wire.marshal(ps).value) == Some(ps)
  }

  function Get<T>(o: Option<T>, default: T): T {
    if o.Some? then o.value else default
  }

  function ConvertType(t: TypeCode): Option<ProtoType> {
    if t == TYPE_FILE then Some(PFile)
    else if t == TYPE_DIRECTORY then Some(PDirectory)
    else if t == TYPE_SYMLINK then Some(PSymlink)
    else if t == TYPE_BLOCK_DEVICE then Some(PBlockDevice)
    else if t == TYPE_CHAR_DEVICE then Some(PCharDevice)
    else if t == TYPE_NAMED_PIPE then Some(PNamedPipe)
    else None
  }

  function ConvertProtoType(t: ProtoType): Option<TypeCode> {
    match t
    case PFile => Some(TYPE_FILE)
    case PDirectory => Some(TYPE_DIRECTORY)
    case PSymlink => Some(TYPE_SYMLINK)
    case PBlockDevice => Some(TYPE_BLOCK_DEVICE)
    case PCharDevice => Some(TYPE_CHAR_DEVICE)
    case PNamedPipe => Some(TYPE_NAMED_PIPE)
    case POther(_) => None
  }

  function MakeInfoProto(entry: FileInfo): Option<FileInfoProto> {
    match ConvertType(entry.typ)
    case None => None
    case Some(t) =>
      Some(FileInfoProto(
             Some(t),
             Some(entry.permissions),
             Some(entry.uid),
             entry.username,
             Some(entry.gid),
             entry.groupname,
             Some(entry.name),
             entry.hardLinkTarget,
             Some(entry.mtime),
             Some(entry.size),
             Some(entry.inode),
             entry.scores,
             if entry.typ == TYPE_SYMLINK then Some(entry.target) else None,
             if entry.typ == TYPE_BLOCK_DEVICE || entry.typ == TYPE_CHAR_DEVICE
             then Some(entry.deviceNumber) else None))
  }

  function ConvertScores(blobs: seq<Bytes>): Option<seq<Score>> {
    if blobs == [] then Some([])
    else
      var last := |blobs| - 1;
      var init := ConvertScores(blobs[..last]);
      if init.Some? && |blobs[last]| == SCORE_LENGTH
      then Some(init.value + [blobs[last]])
      else None
  }

  /** An absent type reads as unknown, which is not accepted; other absent fields read as zero values. */
  function ConvertEntryProto(p: FileInfoProto): Option<FileInfo> {
    var typ := ConvertProtoType(Get(p.typ, POther(TYPE_UNKNOWN)));
    var scores := ConvertScores(p.blob);
    if typ.None? || scores.None? then None
    else
      Some(FileInfo(
             typ.value,
             Get(p.name, ""),
             Get(p.permissions, 0),
             Get(p.uid, 0),
             p.username,
             Get(p.gid, 0),
             p.groupname,
             Get(p.mtime, Time(0, 0)),
             Get(p.size, 0),
             0,
             Get(p.inode, 0),
             scores.value,
             p.hardLinkTarget,
             Get(p.target, ""),
             Get(p.deviceNumber, 0)))
  }

  // ---- Blobs ----

  const MAGIC_DIR: Byte := 'd' as int
  const MAGIC_FILE: Byte := 'f' as int

  function MakeProtos(listing: seq<FileInfo>): Option<seq<FileInfoProto>> {
    if listing == [] then Some([])
    else
      var last := |listing| - 1;
      var init := MakeProtos(listing[..last]);
      var p := MakeInfoProto(listing[last]);
      if init.Some? && p.Some? then Some(init.value + [p.value]) else None
  }

  function ConvertProtos(ps: seq<FileInfoProto>): Option<seq<FileInfo>> {
    if ps == [] then Some([])
    else
      var last := |ps| - 1;
      var init := ConvertProtos(ps[..last]);
      var e := ConvertEntryProto(ps[last]);
      if init.Some? && e.Some? then Some(init.value + [e.value]) else None
  }

  function MarshalledDir(wire: Wire, listing: seq<FileInfo>): Option<Bytes> {
    match MakeProtos(listing)
    case None => None
    case Some(ps) => if wire.marshal(ps).Some? then Some(wire.marshal(ps).value + [MAGIC_DIR]) else None
  }

  function UnmarshalledDir(wire: Wire, d: Bytes): Option<seq<FileInfo>> {
    if d == [] || d[|d| - 1] != MAGIC_DIR then None
    else
      match wire.unmarshal(d[..|d| - 1])
      case None => None
      case Some(ps) => ConvertProtos(ps)
  }

  function MarshalFile(contents: Bytes): Bytes {
    contents + [MAGIC_FILE]
  }

  function UnmarshalFile(f: Bytes): Option<Bytes> {
    if f == [] || f[|f| - 1] != MAGIC_FILE then None else Some(f[..|f| - 1])
  }

  lemma {:induction false} MakeProtosOfPrefix(listing: seq<FileInfo>, k: nat)
    requires k <= |listing| && MakeProtos(listing).Some?
    ensures MakeProtos(listing[..k]).Some?
    decreases |listing|
  {
    if k < |listing| {
      MakeProtosOfPrefix(listing[..|listing| - 1], k);
      assert listing[..|listing| - 1][..k] == listing[..k];
    } else {
      assert listing[..k] == listing;
    }
  }

  lemma {:induction false} ConvertProtosOfPrefix(ps: seq<FileInfoProto>, k: nat)
    requires k <= |ps| && ConvertProtos(ps).Some?
    ensures ConvertProtos(ps[..k]).Some?
    decreases |ps|
  {
    if k < |ps| {
      ConvertProtosOfPrefix(ps[..|ps| - 1], k);
      assert ps[..|ps| - 1][..k] == ps[..k];
    } else {
      assert ps[..k] == ps;
    }
  }

  method MarshalDir(wire: Wire, listing: seq<FileInfo>) returns (d: Option<Bytes>)
    ensures d == MarshalledDir(wire, listing)
  {
    var protos: seq<FileInfoProto> := [];
    for i := 0 to |listing|
      invariant MakeProtos(listing[..i]) == Some(protos)
    {
      var p := MakeInfoProto(listing[i]);
      assert listing[..i + 1][..i] == listing[..i];
      if p.None? {
        if MakeProtos(listing).Some? {
          MakeProtosOfPrefix(listing, i + 1);
        }
        return None;
      }
      protos := protos + [p.value];
    }
    assert listing[..|listing|] == listing;
    var b := wire.marshal(protos);
    if b.None? {
      return None;
    }
    return Some(b.value + [MAGIC_DIR]);
  }

  method UnmarshalDir(wire: Wire, d: Bytes) returns (listing: Option<seq<FileInfo>>)
    ensures listing == UnmarshalledDir(wire, d)
  {
    var l := |d|;
    if l == 0 || d[l - 1] != MAGIC_DIR {
      return None;
    }
    var message := wire.unmarshal(d[..l - 1]);
    if message.None? {
      return None;
    }
    var ps := message.value;
    var entries: seq<FileInfo> := [];
    for i := 0 to |ps|
      invariant ConvertProtos(ps[..i]) == Some(entries)
    {
      var e := ConvertEntryProto(ps[i]);
      assert ps[..i + 1][..i] == ps[..i];
      if e.None? {
        if ConvertProtos(ps).Some? {
          ConvertProtosOfPrefix(ps, i + 1);
        }
        return None;
      }
      entries := entries + [e.value];
    }
    assert ps[..|ps|] == ps;
    return Some(entries);
  }

  // ---- What is accepted ----

  lemma {:induction false} ScoresConvertIff(blobs: seq<Bytes>)
    ensures ConvertScores(blobs).Some? <==> forall i :: 0 <= i < |blobs| ==> |blobs[i]| == SCORE_LENGTH
  {
    if blobs != [] {
      var last := |blobs| - 1;
      ScoresConvertIff(blobs[..last]);
      assert forall i :: 0 <= i < last ==> blobs[..last][i] == blobs[i];
    }
  }

  /** The type is one of the six that a listing can have, and each score has its length. */
  ghost predicate IsConvertible(p: FileInfoProto) {
    && p.typ in {Some(PFile), Some(PDirectory), Some(PSymlink), Some(PBlockDevice), Some(PCharDevice), Some(PNamedPipe)}
    && forall i :: 0 <= i < |p.blob| ==> |p.blob[i]| == SCORE_LENGTH
  }

  lemma EntryIsAcceptedIff(p: FileInfoProto)
    ensures ConvertEntryProto(p).Some? <==> IsConvertible(p)
  {
    ScoresConvertIff(p.blob);
  }

  lemma {:induction false} ProtosAcceptedIff(ps: seq<FileInfoProto>)
    ensures ConvertProtos(ps).Some? <==> forall p :: p in ps ==> IsConvertible(p)
  {
    if ps != [] {
      var last := |ps| - 1;
      ProtosAcceptedIff(ps[..last]);
      EntryIsAcceptedIff(ps[last]);
      assert ps == ps[..last] + [ps[last]];
    }
  }

  /**
   A blob is accepted as a listing if and only if it ends with the magic byte,
   what comes before parses, and all entries have a type and scores that can be.
   */
  lemma ListingIsAcceptedIff(wire: Wire, d: Bytes)
    ensures UnmarshalledDir(wire, d).Some? <==>
      && d != [] && d[|d| - 1] == 'd' as int && wire.unmarshal(d[..|d| - 1]).Some?
      && forall p :: p in wire.unmarshal(d[..|d| - 1]).value ==> IsConvertible(p)
  {
    if d != [] && wire.unmarshal(d[..|d| - 1]).Some? {
      ProtosAcceptedIff(wire.unmarshal(d[..|d| - 1]).value);
    }
  }

  /** The two tables of types. */
  lemma TypesCorrespond()
    ensures ConvertType(TYPE_FILE) == Some(PFile) && ConvertType(TYPE_DIRECTORY) == Some(PDirectory)
    ensures ConvertType(TYPE_SYMLINK) == Some(PSymlink) && ConvertType(TYPE_NAMED_PIPE) == Some(PNamedPipe)
    ensures ConvertType(TYPE_BLOCK_DEVICE) == Some(PBlockDevice) && ConvertType(TYPE_CHAR_DEVICE) == Some(PCharDevice)
    ensures forall t: TypeCode :: ConvertType(t).Some? ==> ConvertProtoType(ConvertType(t).value) == Some(t)
    ensures forall n :: ConvertProtoType(POther(n)) == None
  {
  }

  /** Fields that are absent read as zero. */
  lemma AbsentFieldsAreZero(p: FileInfoProto)
    requires IsConvertible(p)
    ensures var e := ConvertEntryProto(p);
      && e.Some?
      && (p.permissions == None ==> e.value.permissions == 0)
      && (p.uid == None ==> e.value.uid == 0) && (p.gid == None ==> e.value.gid == 0)
      && (p.name == None ==> e.value.name == "") && (p.target == None ==> e.value.target == "")
      && (p.mtime == None ==> e.value.mtime == Time(0, 0))
      && (p.size == None ==> e.value.size == 0) && (p.inode == None ==> e.value.inode == 0)
      && (p.deviceNumber == None ==> e.value.deviceNumber == 0)
  {
    EntryIsAcceptedIff(p);
  }

  // ---- Round trip ----

  /** What a listing keeps of an entry. */
  function Normalize(e: FileInfo): FileInfo {
    e.(containingDevice := 0,
       target := if e.typ == TYPE_SYMLINK then e.target else "",
       deviceNumber := if e.typ == TYPE_BLOCK_DEVICE || e.typ == TYPE_CHAR_DEVICE then e.deviceNumber else 0)
  }

  function NormalizeAll(l: seq<FileInfo>): seq<FileInfo> {
    seq(|l|, i requires 0 <= i < |l| => Normalize(l[i]))
  }

  /** It keeps all but three fields of every entry, and those too where they mean anything. */
  lemma NormalizeKeeps(e: FileInfo)
    ensures Normalize(e) == e.(containingDevice := 0, target := Normalize(e).target, deviceNumber := Normalize(e).deviceNumber)
    ensures e.typ == TYPE_SYMLINK ==> Normalize(e).target == e.target
    ensures e.typ == TYPE_BLOCK_DEVICE || e.typ == TYPE_CHAR_DEVICE ==> Normalize(e).deviceNumber == e.deviceNumber
  {
  }

  lemma NormalizeIsIdempotent(l: seq<FileInfo>)
    ensures NormalizeAll(NormalizeAll(l)) == NormalizeAll(l)
  {
  }

  lemma {:induction false} ScoresConvert(scores: seq<Score>)
    ensures ConvertScores(scores) == Some(scores)
  {
    if scores != [] {
      var last := |scores| - 1;
      ScoresConvert(scores[..last]);
      assert scores == scores[..last] + [scores[last]];
    }
  }

  lemma EntryRoundTrip(e: FileInfo)
    ensures MakeInfoProto(e).Some? <==> e.typ < TYPE_SOCKET
    ensures MakeInfoProto(e).Some? ==> ConvertEntryProto(MakeInfoProto(e).value) == Some(Normalize(e))
  {
    ScoresConvert(e.scores);
  }

  lemma {:induction false} ProtosExist(l: seq<FileInfo>)
    ensures MakeProtos(l).Some? <==> forall i :: 0 <= i < |l| ==> l[i].typ < TYPE_SOCKET
  {
    if l != [] {
      var last := |l| - 1;
      ProtosExist(l[..last]);
      EntryRoundTrip(l[last]);
      assert forall i :: 0 <= i < last ==> l[..last][i] == l[i];
    }
  }

  lemma NormalizeLast(l: seq<FileInfo>)
    requires l != []
    ensures NormalizeAll(l) == NormalizeAll(l[..|l| - 1]) + [Normalize(l[|l| - 1])]
  {
  }

  lemma {:induction false} ProtosRoundTrip(l: seq<FileInfo>)
    requires MakeProtos(l).Some?
    ensures ConvertProtos(MakeProtos(l).value) == Some(NormalizeAll(l))
  {
    if l == [] {
      assert NormalizeAll(l) == [];
    } else {
      var last := |l| - 1;
      ProtosRoundTrip(l[..last]);
      EntryRoundTrip(l[last]);
      NormalizeLast(l);
      var ps := MakeProtos(l).value;
      assert ps == MakeProtos(l[..last]).value + [MakeInfoProto(l[last]).value];
      assert ps[..|ps| - 1] == MakeProtos(l[..last]).value;
    }
  }

  /**
   A listing can be marshalled exactly when every entry has one of the six
   types, the wire format permitting, and then unmarshals as its normal form.
   */
  lemma {:induction false} ListingRoundTrip(wire: Wire, l: seq<FileInfo>)
    requires WireSound(wire)
    ensures MarshalledDir(wire, l).Some? <==>
      && (forall i :: 0 <= i < |l| ==> l[i].typ < TYPE_SOCKET)
      && MakeProtos(l).Some? && wire.marshal(MakeProtos(l).value).Some?
    ensures MarshalledDir(wire, l).Some? ==>
      UnmarshalledDir(wire, MarshalledDir(wire, l).value) == Some(NormalizeAll(l))
  {
    ProtosExist(l);
    if MarshalledDir(wire, l).Some? {
      ProtosRoundTrip(l);
      var d := MarshalledDir(wire, l).value;
      assert d[..|d| - 1] == wire.marshal(MakeProtos(l).value).value;
    }
  }

  /** A message with an entry that has no type is not a listing, whatever else is in it. */
  lemma {:induction false} TypelessEntriesAreRejected(ps: seq<FileInfoProto>, k: nat)
    requires k < |ps| && ps[k].typ == None
    ensures ConvertProtos(ps) == None
  {
    if k < |ps| - 1 {
      TypelessEntriesAreRejected(ps[..|ps| - 1], k);
    }
  }

  lemma FileRoundTrip(contents: Bytes)
    ensures UnmarshalFile(MarshalFile(contents)) == Some(contents)
  {
    assert MarshalFile(contents)[..|contents|] == contents;
  }

  /** No blob reads both as a directory and as a file chunk. */
  lemma KindsAreDisjoint(wire: Wire, b: Bytes)
    ensures UnmarshalledDir(wire, b).None? || UnmarshalFile(b).None?
  {
  }

  /** Equal blobs come from listings that are equal as far as listings go. */
  lemma MarshalDirIsInjective(wire: Wire, l: seq<FileInfo>, m: seq<FileInfo>)
    requires WireSound(wire) && MarshalledDir(wire, l).Some?
    requires MarshalledDir(wire, l) == MarshalledDir(wire, m)
    ensures NormalizeAll(l) == NormalizeAll(m)
  {
    ListingRoundTrip(wire, l);
    ListingRoundTrip(wire, m);
  }
}
