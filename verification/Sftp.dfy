/**
 Streaming SFTP handles (ssh-transport/src/lib.rs: SshSpikeSftp and SshSpikeRemoteFile) over a
 server that follows sections 6.3 and 6.4 of draft-ietf-secsh-filexfer-02.
 */
module Sftp {
  import opened Wrappers
  import opened Bytes

  type FileSystem = map<string, seq<byte>>

  datatype Error = HandleClosed | Refused | NoSuchFile | BadHandle | Interrupted

  datatype Flags = Flags(read: bool, write: bool, create: bool, truncate: bool)

  /** An open handle: where the next read or write goes, and what the server lets it do. */
  datatype Handle = Handle(path: string, pos: nat, flags: Flags)

  // ----- the server

  /** SSH_FXP_OPEN: a missing file needs CREATE; TRUNCATE empties an existing one. */
  function ServerOpen(fs: FileSystem, path: string, flags: Flags): (r: Result<FileSystem, Error>) {
    if path in fs then Ok(if flags.truncate then fs[path := []] else fs)
    else if flags.create then Ok(fs[path := []])
    else Err(NoSuchFile)
  }

  function Zeros(n: nat): (z: seq<byte>)
    ensures |z| == n
  {
    seq(n, _ => 0)
  }

  /** SSH_FXP_WRITE: overwrite from pos; a gap beyond the end is filled with zeroes. */
  function WriteAt(content: seq<byte>, pos: nat, data: seq<byte>): (r: seq<byte>) {
    if data == [] then
      content
    else
      var base := if pos <= |content| then content else content + Zeros(pos - |content|);
      base[..pos] + data + (if pos + |data| <= |base| then base[pos + |data|..] else [])
  }

  /** A non-truncating write within the file keeps every byte before it and every byte after it. */
  lemma WriteAtPointwise(content: seq<byte>, pos: nat, data: seq<byte>)
    ensures var r := WriteAt(content, pos, data);
            && (data != [] ==> |r| == if pos + |data| > |content| then pos + |data| else |content|)
            && (forall i :: 0 <= i < |r| ==>
                  r[i] == if pos <= i < pos + |data| then data[i - pos]
                          else if i < |content| then content[i]
                          else 0)
            && (data == [] ==> r == content)
  {
  }

  lemma WriteAtEnd(content: seq<byte>, data: seq<byte>)
    ensures WriteAt(content, |content|, data) == content + data
  {
  }

  // ----- the client operations on (file system, handle)

  function FlagsFor(readOnly: bool, truncate: bool): (f: Flags) {
    if readOnly then Flags(true, false, false, false) else Flags(false, true, true, truncate)
  }

  /** open_file: flags from the mode, then a seek only when the offset is positive. */
  function Open(fs: FileSystem, path: string, readOnly: bool, truncate: bool, offset: nat)
    : (r: Result<(FileSystem, Handle), Error>)
  {
    var flags := FlagsFor(readOnly, truncate);
    match ServerOpen(fs, path, flags)
    case Err(e) => Err(e)
    case Ok(fs') => Ok((fs', Handle(path, offset, flags)))
  }

  /** A write of which the server applied the first `applied` bytes. */
  function Written(fs: FileSystem, h: Handle, data: seq<byte>, applied: nat): (r: (FileSystem, Handle))
    requires h.path in fs && applied <= |data|
  {
    (fs[h.path := WriteAt(fs[h.path], h.pos, data[..applied])], h.(pos := h.pos + applied))
  }

  /** Any chunk a read of at most max bytes may return: short reads are allowed, empty ones only at the end. */
  predicate MayRead(content: seq<byte>, pos: nat, max: nat, chunk: seq<byte>) {
    && |chunk| <= max
    && (if pos < |content| then
          && pos + |chunk| <= |content|
          && chunk == content[pos..pos + |chunk|]
          && (chunk == [] <==> max == 0)
        else
          chunk == [])
  }

  class Server {
    var files: FileSystem

    constructor (files: FileSystem)
      ensures this.files == files
    {
      this.files := files;
    }
  }

  /** SshSpikeRemoteFile: an optional handle, emptied by disconnect. */
  class RemoteFile {
    const server: Server
    var file: Option<Handle>
    /** The handles whose close a spawned task sends. */
    var closing: seq<Handle>

    ghost predicate Valid()
      reads this, server
    {
      file.Some? ==> file.value.path in server.files
    }

    constructor (server: Server, handle: Handle)
      requires handle.path in server.files
      ensures Valid() && this.server == server && file == Some(handle) && closing == []
    {
      this.server := server;
      file := Some(handle);
      closing := [];
    }

    /** One read of at most max bytes. The server picks how many; a read may also fail. */
    method Read(max: nat, interrupted: bool) returns (r: Result<seq<byte>, Error>)
      requires Valid()
      modifies this`file
      ensures Valid()
      ensures old(file).None? ==> r == Err(HandleClosed) && file == None
      ensures old(file).Some? && (interrupted || !old(file).value.flags.read) ==> r.Err? && file == old(file)
      ensures old(file).Some? && !interrupted && old(file).value.flags.read ==>
                var h := old(file).value;
                && r.Ok? && MayRead(server.files[h.path], h.pos, max, r.value)
                && file == Some(h.(pos := h.pos + |r.value|))
                && (r.value == [] <==> h.pos >= |server.files[h.path]| || max == 0)
    {
      if file.None? {
        return Err(HandleClosed);
      }
      var h := file.value;
      if !h.flags.read {
        return Err(BadHandle);
      }
      if interrupted {
        return Err(Interrupted);
      }
      var content := server.files[h.path];
      var n := 0;
      if max > 0 && h.pos < |content| {
        n :| 1 <= n <= max && h.pos + n <= |content|;
      }
      var chunk := if n == 0 then [] else content[h.pos..h.pos + n];
      file := Some(h.(pos := h.pos + n));
      r := Ok(chunk);
    }

    /** write_all at the cursor. On a failure the server has applied some prefix. */
    method Write(data: seq<byte>, applied: nat) returns (r: Result<(), Error>)
      requires Valid() && applied <= |data|
      modifies this`file, server
      ensures Valid()
      ensures old(file).None? ==> r == Err(HandleClosed) && file == None && server.files == old(server.files)
      ensures old(file).Some? && !old(file).value.flags.write ==>
                r.Err? && file == old(file) && server.files == old(server.files)
      ensures old(file).Some? && old(file).value.flags.write ==>
                && (server.files, file) == (var w := Written(old(server.files), old(file).value, data, applied); (w.0, Some(w.1)))
                && (r.Ok? <==> applied == |data|)
    {
      if file.None? {
        return Err(HandleClosed);
      }
      var h := file.value;
      if !h.flags.write {
        return Err(BadHandle);
      }
      var w := Written(server.files, h, data, applied);
      server.files := w.0;
      file := Some(w.1);
      r := if applied == |data| then Ok(()) else Err(Interrupted);
    }

    /** Takes the handle, if it is still there, and spawns its close; so each handle is closed at most once. */
    method Disconnect()
      modifies this`file, this`closing
      ensures file == None
      ensures closing == old(closing) + (if old(file).Some? then [old(file).value] else [])
    {
      if file.Some? {
        closing := closing + [file.value];
        file := None;
      }
    }
  }

  /** open_file; `refused` stands for any other reason a server gives. */
  method OpenFile(server: Server, path: string, readOnly: bool, truncate: bool, offset: nat, refused: bool)
    returns (r: Result<RemoteFile, Error>)
    modifies server
    ensures r.Ok? ==> fresh(r.value) && r.value.Valid() && r.value.server == server
                      && r.value.file.Some? && r.value.file.value.path == path && r.value.file.value.pos == offset
    ensures readOnly ==>
              && server.files == old(server.files)
              && (r.Ok? <==> path in old(server.files) && !refused)
              && (r.Ok? ==> r.value.file.value.flags.read && !r.value.file.value.flags.write)
    ensures !readOnly ==>
              && (r.Ok? <==> !refused)
              && (r.Ok? ==> r.value.file.value.flags.write && !r.value.file.value.flags.read)
              && server.files == (if refused then old(server.files)
                                  else old(server.files)[path := if path in old(server.files) && !truncate
                                                                 then old(server.files)[path] else []])
    ensures refused ==> r == Err(Refused) && server.files == old(server.files)
    ensures !refused ==>
              match Open(old(server.files), path, readOnly, truncate, offset)
              case Err(e) => r == Err(e) && server.files == old(server.files)
              case Ok(grant) =>
                && server.files == grant.0
                && r.Ok? && fresh(r.value) && r.value.Valid()
                && r.value.server == server && r.value.file == Some(grant.1)
  {
    if refused {
      return Err(Refused);
    }
    var flags := if readOnly then Flags(true, false, false, false) else Flags(false, true, true, false);
    if !readOnly && truncate {
      flags := flags.(truncate := true);
    }
    match ServerOpen(server.files, path, flags) {
      case Err(e) =>
        return Err(e);
      case Ok(fs) =>
        server.files := fs;
        var handle := Handle(path, 0, flags);
        if offset > 0 {
          handle := handle.(pos := offset);
        }
        var file := new RemoteFile(server, handle);
        r := Ok(file);
    }
  }

  /** A handle opened for reading refuses every write, and one opened for writing every read; neither has an effect. */
  method WrongWay(server: Server, path: string, readOnly: bool, truncate: bool, offset: nat, data: seq<byte>, max: nat)
    returns (granted: bool, refused: bool)
    modifies server
    ensures readOnly ==> server.files == old(server.files) && (granted <==> path in old(server.files))
    ensures !readOnly ==> granted
    ensures granted ==> refused
  {
    refused := false;
    var file := OpenFile(server, path, readOnly, truncate, offset, false);
    granted := file.Ok?;
    if file.Ok? && readOnly {
      var w := file.value.Write(data, |data|);
      refused := w.Err?;
    } else if file.Ok? {
      var r := file.value.Read(max, false);
      refused := r.Err?;
    }
  }

  // ----- uploads

  /** SshSpikeSftp::write: create or truncate, write everything, close. */
  function WholeWrite(fs: FileSystem, path: string, data: seq<byte>): (fs': FileSystem) {
    var grant := Open(fs, path, false, true, 0).value;
    Written(grant.0, grant.1, data, |data|).0
  }

  lemma WholeWriteReplaces(fs: FileSystem, path: string, data: seq<byte>)
    ensures WholeWrite(fs, path, data) == fs[path := data]
  {
    assert data[..|data|] == data;
    WriteAtEnd([], data);
    assert [] + data == data;
    assert fs[path := []][path := data] == fs[path := data];
  }

  /** One write call of a sending client: how many bytes it hands over and how many arrive. */
  datatype Chunk = Chunk(size: nat, applied: nat)

  /** A resumption: how far before the end of the remote file it starts, and its writes. */
  datatype Attempt = Attempt(rewind: nat, chunks: seq<Chunk>)

  function Min(a: nat, b: nat): (m: nat) {
    if a <= b then a else b
  }

  function Max(a: nat, b: nat): (m: nat) {
    if a <= b then b else a
  }

  /** The offset of a resumption: any one up to the remote length. */
  function ResumeAt(length: nat, rewind: nat): (offset: nat)
    ensures offset <= length && (rewind <= length ==> offset + rewind == length)
  {
    length - Min(rewind, length)
  }

  /**
   The client writes consecutive pieces of the payload. The first write that is not applied in full
   ends the connection.
   */
  function SendChunks(fs: FileSystem, h: Handle, payload: seq<byte>, sent: nat, chunks: seq<Chunk>): (fs': FileSystem)
    requires h.path in fs
    decreases |chunks|
  {
    if chunks == [] || sent >= |payload| then
      fs
    else
      var piece := payload[sent..Min(sent + chunks[0].size, |payload|)];
      var applied := Min(chunks[0].applied, |piece|);
      var w := Written(fs, h, piece, applied);
      if applied < |piece| then w.0 else SendChunks(w.0, w.1, payload, sent + |piece|, chunks[1..])
  }

  /** One connection: open at the given offset and send from that offset of the payload. */
  function Connection(fs: FileSystem, path: string, offset: nat, truncate: bool, payload: seq<byte>, chunks: seq<Chunk>)
    : (fs': FileSystem)
  {
    var grant := Open(fs, path, false, truncate, offset).value;
    SendChunks(grant.0, grant.1, payload, offset, chunks)
  }

  /** Later connections resume at or before the end of the remote file, without truncating. */
  function Resume(fs: FileSystem, path: string, payload: seq<byte>, attempts: seq<Attempt>): (fs': FileSystem)
    requires path in fs
    ensures path in fs'
    decreases |attempts|
  {
    if attempts == [] then
      fs
    else
      var offset := ResumeAt(|fs[path]|, attempts[0].rewind);
      ConnectionKeepsPath(fs, path, offset, false, payload, attempts[0].chunks);
      Resume(Connection(fs, path, offset, false, payload, attempts[0].chunks), path, payload, attempts[1..])
  }

  /** A whole upload: a fresh truncating connection, then any number of resumptions. */
  function Upload(fs: FileSystem, path: string, payload: seq<byte>, first: seq<Chunk>, later: seq<Attempt>)
    : (fs': FileSystem)
    ensures path in fs'
  {
    ConnectionKeepsPath(fs, path, 0, true, payload, first);
    Resume(Connection(fs, path, 0, true, payload, first), path, payload, later)
  }

  lemma {:induction false} SendKeepsPath(fs: FileSystem, h: Handle, payload: seq<byte>, sent: nat, chunks: seq<Chunk>)
    requires h.path in fs
    ensures h.path in SendChunks(fs, h, payload, sent, chunks)
    decreases |chunks|
  {
    if chunks != [] && sent < |payload| {
      var piece := payload[sent..Min(sent + chunks[0].size, |payload|)];
      var w := Written(fs, h, piece, Min(chunks[0].applied, |piece|));
      SendKeepsPath(w.0, w.1, payload, sent + |piece|, chunks[1..]);
    }
  }

  lemma ConnectionKeepsPath(fs: FileSystem, path: string, offset: nat, truncate: bool, payload: seq<byte>,
                            chunks: seq<Chunk>)
    ensures path in Connection(fs, path, offset, truncate, payload, chunks)
  {
    var grant := Open(fs, path, false, truncate, offset).value;
    SendKeepsPath(grant.0, grant.1, payload, offset, chunks);
  }

  /** The remote file holds the first k bytes of the payload; every other file is as it was. */
  predicate Holds(fs: FileSystem, original: FileSystem, path: string, payload: seq<byte>, k: nat) {
    k <= |payload| && fs == original[path := payload[..k]]
  }

  /** Writing the payload's own bytes over a prefix of it, or on from there. */
  lemma PrefixWritten(payload: seq<byte>, n: nat, k: nat, end: nat)
    requires k <= n <= |payload| && k <= end <= |payload|
    ensures WriteAt(payload[..n], k, payload[k..end]) == payload[..Max(n, end)]
  {
    var r := WriteAt(payload[..n], k, payload[k..end]);
    WriteAtPointwise(payload[..n], k, payload[k..end]);
    assert forall i :: 0 <= i < |r| ==> r[i] == payload[..Max(n, end)][i];
  }

  /** One write of the payload's bytes from k to end into a file that holds its first n. */
  lemma WriteExtends(fs: FileSystem, original: FileSystem, h: Handle, payload: seq<byte>, n: nat, size: nat, applied: nat)
    requires h.pos <= n && h.pos + size <= |payload| && applied <= size
    requires Holds(fs, original, h.path, payload, n)
    ensures var w := Written(fs, h, payload[h.pos..h.pos + size], applied);
            w.1 == h.(pos := h.pos + applied) && Holds(w.0, original, h.path, payload, Max(n, h.pos + applied))
  {
    hide WriteAt;
    assert payload[h.pos..h.pos + size][..applied] == payload[h.pos..h.pos + applied];
    PrefixWritten(payload, n, h.pos, h.pos + applied);
  }

  lemma HoldsBound(fs: FileSystem, original: FileSystem, path: string, payload: seq<byte>, n: nat)
    requires Holds(fs, original, path, payload, n)
    ensures n <= |payload| && path in fs
  {
  }

  lemma {:induction false} SendExtends(fs: FileSystem, original: FileSystem, h: Handle, payload: seq<byte>, n: nat,
                                       chunks: seq<Chunk>) returns (k: nat)
    requires h.pos <= n && Holds(fs, original, h.path, payload, n)
    ensures n <= k && Holds(SendChunks(fs, h, payload, h.pos, chunks), original, h.path, payload, k)
    decreases |chunks|
  {
    hide Written, Holds;
    HoldsBound(fs, original, h.path, payload, n);
    k := n;
    if chunks != [] && h.pos < |payload| {
      var size := Min(h.pos + chunks[0].size, |payload|) - h.pos;
      var applied := Min(chunks[0].applied, size);
      WriteExtends(fs, original, h, payload, n, size, applied);
      var w := Written(fs, h, payload[h.pos..h.pos + size], applied);
      k := Max(n, h.pos + applied);
      if applied == size {
        k := SendExtends(w.0, original, w.1, payload, k, chunks[1..]);
      }
    }
  }

  lemma {:induction false} ResumeExtends(fs: FileSystem, original: FileSystem, path: string, payload: seq<byte>, n: nat,
                                         attempts: seq<Attempt>) returns (k: nat)
    requires Holds(fs, original, path, payload, n)
    ensures n <= k && Holds(Resume(fs, path, payload, attempts), original, path, payload, k)
    decreases |attempts|
  {
    if attempts == [] {
      k := n;
    } else {
      var offset := ResumeAt(n, attempts[0].rewind);
      var grant := Open(fs, path, false, false, offset).value;
      k := SendExtends(grant.0, original, grant.1, payload, n, attempts[0].chunks);
      k := ResumeExtends(Connection(fs, path, offset, false, payload, attempts[0].chunks), original, path, payload, k, attempts[1..]);
    }
  }

  /**
   However the payload is cut into chunks, however often the connection breaks (even inside a
   write) and resumes at or before the end of the remote file: the remote file is always a prefix of
   the payload, and no other file changes.
   */
  lemma UploadIsPrefix(fs: FileSystem, path: string, payload: seq<byte>, first: seq<Chunk>, later: seq<Attempt>)
    returns (k: nat)
    ensures Holds(Upload(fs, path, payload, first, later), fs, path, payload, k)
  {
    var grant := Open(fs, path, false, true, 0).value;
    assert Holds(grant.0, fs, path, payload, 0);
    k := SendExtends(grant.0, fs, grant.1, payload, 0, first);
    k := ResumeExtends(Connection(fs, path, 0, true, payload, first), fs, path, payload, k, later);
  }

  /** A resumption, wherever it starts, never takes back what an upload has reached. */
  lemma ResumptionOnlyAdds(fs: FileSystem, path: string, payload: seq<byte>, first: seq<Chunk>, later: seq<Attempt>,
                           next: Attempt)
    ensures Upload(fs, path, payload, first, later)[path] <= Upload(fs, path, payload, first, later + [next])[path] <= payload
  {
    var k := UploadIsPrefix(fs, path, payload, first, later);
    ConnectionKeepsPath(fs, path, 0, true, payload, first);
    ResumeAppend(Connection(fs, path, 0, true, payload, first), path, payload, later, [next]);
    var n := ResumeExtends(Upload(fs, path, payload, first, later), fs, path, payload, k, [next]);
  }

  /** An interrupted and resumed upload that reached the payload's length is one whole-file write. */
  lemma UploadRefinesWholeWrite(fs: FileSystem, path: string, payload: seq<byte>, first: seq<Chunk>, later: seq<Attempt>)
    ensures var done := Upload(fs, path, payload, first, later);
            |done[path]| == |payload| <==> done == WholeWrite(fs, path, payload)
  {
    var k := UploadIsPrefix(fs, path, payload, first, later);
    WholeWriteReplaces(fs, path, payload);
    assert payload[..|payload|] == payload;
  }

  /** Bytes offered by writes that are all applied. */
  function Offered(chunks: seq<Chunk>): (n: nat) {
    if chunks == [] then 0 else chunks[0].size + Offered(chunks[1..])
  }

  /** Writes that are all applied. */
  predicate Intact(chunks: seq<Chunk>) {
    forall i :: 0 <= i < |chunks| ==> chunks[i].applied == chunks[i].size
  }

  lemma {:induction false} IntactSend(fs: FileSystem, original: FileSystem, h: Handle, payload: seq<byte>, n: nat,
                                      chunks: seq<Chunk>)
    requires h.pos <= n && Holds(fs, original, h.path, payload, n) && Intact(chunks)
    ensures Holds(SendChunks(fs, h, payload, h.pos, chunks), original, h.path, payload,
                  Max(n, Min(h.pos + Offered(chunks), |payload|)))
    decreases |chunks|
  {
    hide Written, Holds;
    HoldsBound(fs, original, h.path, payload, n);
    if chunks != [] && h.pos < |payload| {
      var size := Min(h.pos + chunks[0].size, |payload|) - h.pos;
      WriteExtends(fs, original, h, payload, n, size, size);
      var w := Written(fs, h, payload[h.pos..h.pos + size], size);
      IntactSend(w.0, original, w.1, payload, Max(n, h.pos + size), chunks[1..]);
    }
  }

  /** Progress: a resumption that is not interrupted and offers enough bytes completes the file. */
  lemma LastConnectionCompletes(fs: FileSystem, path: string, payload: seq<byte>, first: seq<Chunk>,
                                later: seq<Attempt>, last: Attempt)
    requires Intact(last.chunks) && Offered(last.chunks) >= |payload|
    ensures var sofar := Upload(fs, path, payload, first, later);
            Resume(sofar, path, payload, [last]) == WholeWrite(fs, path, payload)
  {
    var sofar := Upload(fs, path, payload, first, later);
    var k := UploadIsPrefix(fs, path, payload, first, later);
    var offset := ResumeAt(k, last.rewind);
    var grant := Open(sofar, path, false, false, offset).value;
    IntactSend(grant.0, fs, grant.1, payload, k, last.chunks);
    WholeWriteReplaces(fs, path, payload);
    assert payload[..|payload|] == payload;
    var done := Connection(sofar, path, offset, false, payload, last.chunks);
    assert [last][1..] == [];
    assert Resume(sofar, path, payload, [last]) == Resume(done, path, payload, []);
  }

  /** Only the payload from `sent` on matters to a sender. */
  lemma {:induction false} SendSame(fs: FileSystem, h: Handle, p: seq<byte>, q: seq<byte>, sent: nat, chunks: seq<Chunk>)
    requires h.path in fs && sent <= |p| == |q| && p[sent..] == q[sent..]
    ensures SendChunks(fs, h, p, sent, chunks) == SendChunks(fs, h, q, sent, chunks)
    decreases |chunks|
  {
    if chunks != [] && sent < |p| {
      var end := Min(sent + chunks[0].size, |p|);
      assert p[sent..end] == p[sent..][..end - sent] == q[sent..][..end - sent] == q[sent..end];
      assert p[end..] == p[sent..][end - sent..] == q[sent..][end - sent..] == q[end..];
      var w := Written(fs, h, p[sent..end], Min(chunks[0].applied, end - sent));
      SendSame(w.0, w.1, p, q, end, chunks[1..]);
    }
  }

  lemma ZeroFill(k: nat, piece: seq<byte>)
    requires piece != []
    ensures WriteAt([], k, piece) == Zeros(k) + piece
  {
    var none: seq<byte> := [];
    assert none + Zeros(k) == Zeros(k) == Zeros(k)[..k];
  }

  /** The payload with its first k bytes zeroed. */
  function ZeroedFront(payload: seq<byte>, k: nat): (z: seq<byte>)
    requires k <= |payload|
    ensures |z| == |payload| && z[k..] == payload[k..]
  {
    Zeros(k) + payload[k..]
  }

  /** What an emptied file holds after the bytes from k to n went to it. */
  function FilledFrom(payload: seq<byte>, k: nat, n: nat): (content: seq<byte>)
    requires k <= n <= |payload|
  {
    if n == k then [] else ZeroedFront(payload, k)[..n]
  }

  lemma SendAfterGap(original: FileSystem, h: Handle, payload: seq<byte>, k: nat, chunks: seq<Chunk>)
    requires k < h.pos <= |payload| && Intact(chunks)
    ensures SendChunks(original[h.path := FilledFrom(payload, k, h.pos)], h, payload, h.pos, chunks)
            == original[h.path := FilledFrom(payload, k, Min(h.pos + Offered(chunks), |payload|))]
  {
    hide SendChunks, Offered, ZeroedFront;
    var filled := ZeroedFront(payload, k);
    var fs := original[h.path := filled[..h.pos]];
    assert payload[h.pos..] == payload[k..][h.pos - k..] == filled[k..][h.pos - k..] == filled[h.pos..];
    SendSame(fs, h, payload, filled, h.pos, chunks);
    IntactSend(fs, original, h, filled, h.pos, chunks);
  }

  lemma FirstPiece(original: FileSystem, h: Handle, payload: seq<byte>, n: nat)
    requires h.pos <= n <= |payload|
    ensures Written(original[h.path := []], h, payload[h.pos..n], n - h.pos)
            == (original[h.path := FilledFrom(payload, h.pos, n)], h.(pos := n))
  {
    var piece := payload[h.pos..n];
    assert piece[..n - h.pos] == piece;
    if piece != [] {
      ZeroFill(h.pos, piece);
      assert ZeroedFront(payload, h.pos)[..n] == Zeros(h.pos) + piece;
    }
    var one, two := original[h.path := []], FilledFrom(payload, h.pos, n);
    assert WriteAt([], h.pos, piece) == two;
    assert one[h.path := two] == original[h.path := two];
  }

  /** Writing from k into an emptied file: nothing at all, or zeroes up to k and then the payload's bytes. */
  lemma {:induction false} SendPastEnd(original: FileSystem, h: Handle, payload: seq<byte>, chunks: seq<Chunk>)
    requires h.pos <= |payload| && Intact(chunks)
    ensures SendChunks(original[h.path := []], h, payload, h.pos, chunks)
            == original[h.path := FilledFrom(payload, h.pos, Min(h.pos + Offered(chunks), |payload|))]
    decreases |chunks|
  {
    hide WriteAt, Zeros, ZeroedFront;
    var k := h.pos;
    if chunks != [] && k < |payload| {
      var n := Min(k + chunks[0].size, |payload|);
      FirstPiece(original, h, payload, n);
      if n == k {
        SendPastEnd(original, h, payload, chunks[1..]);
      } else {
        SendAfterGap(original, h.(pos := n), payload, k, chunks[1..]);
      }
    }
  }

  lemma SameFrontSameWhole(x: seq<byte>, y: seq<byte>, rest: seq<byte>)
    requires |x| == |y|
    ensures x + rest == y + rest <==> x == y
  {
    assert (x + rest)[..|x|] == x && (y + rest)[..|y|] == y;
  }

  /**
   Why a resumption must not truncate: an undisturbed connection that reopens at k with TRUNCATE and
   sends the rest yields the payload exactly when the bytes thrown away were zeroes and there was a
   rest to send.
   */
  lemma TruncatingResume(fs: FileSystem, path: string, payload: seq<byte>, k: nat, chunks: seq<Chunk>)
    requires k <= |payload| && k + Offered(chunks) >= |payload|
    requires Intact(chunks)
    ensures Connection(fs, path, k, true, payload, chunks) == WholeWrite(fs, path, payload)
            <==> payload[..k] == Zeros(k) && (k < |payload| || payload == [])
  {
    hide SendChunks, Offered, FilledFrom, ZeroedFront, Zeros, WholeWrite;
    var got := FilledFrom(payload, k, |payload|);
    SendPastEnd(fs, Open(fs, path, false, true, k).value.1, payload, chunks);
    assert Connection(fs, path, k, true, payload, chunks) == fs[path := got];
    WholeWriteReplaces(fs, path, payload);
    assert fs[path := payload][path] == payload && fs[path := got][path] == got;
    FilledIsWhole(payload, k);
  }

  lemma FilledIsWhole(payload: seq<byte>, k: nat)
    requires k <= |payload|
    ensures FilledFrom(payload, k, |payload|) == payload <==> payload[..k] == Zeros(k) && (k < |payload| || payload == [])
  {
    SameFrontSameWhole(Zeros(k), payload[..k], payload[k..]);
    assert payload == payload[..k] + payload[k..];
    assert ZeroedFront(payload, k)[..|payload|] == ZeroedFront(payload, k);
  }

  /** Two resumptions that truncation spoils: lost bytes that were not zeroes, and nothing left to send. */
  lemma TruncationLoses(fs: FileSystem, path: string)
    ensures Connection(fs, path, 1, true, [7, 8], [Chunk(1, 1)]) == fs[path := [0, 8]] != WholeWrite(fs, path, [7, 8])
    ensures Connection(fs, path, 1, true, [0], []) == fs[path := []] != WholeWrite(fs, path, [0])
  {
    var grant := Open(fs, path, false, true, 1).value;
    SendPastEnd(fs, grant.1, [7, 8], [Chunk(1, 1)]);
    assert Offered([Chunk(1, 1)]) == 1 + Offered([]);
    assert FilledFrom([7, 8], 1, 2) == [0, 8];
    WholeWriteReplaces(fs, path, [7, 8]);
    WholeWriteReplaces(fs, path, [0]);
    assert fs[path := [0, 8]][path] == [0, 8] && fs[path := [7, 8]][path] == [7, 8];
    assert fs[path := []][path] == [] && fs[path := [0]][path] == [0];
  }

  // ----- downloads

  /** The content from an offset on; empty past the end. */
  function Tail(content: seq<byte>, offset: nat): (t: seq<byte>)
    ensures |t| + Min(offset, |content|) == |content|
    ensures forall i :: 0 <= i < |t| ==> t[i] == content[offset + i]
  {
    if offset <= |content| then content[offset..] else []
  }

  /** A connection on which no read fails. */
  ghost predicate Steady(fails: nat -> bool) {
    forall i :: !fails(i)
  }

  /**
   The callers' loop: read until an empty chunk, with any positive request sizes, or until a read
   fails. It has a prefix of what there is from the cursor on, and all of it if no read failed.
   */
  method Download(file: RemoteFile, request: nat -> nat, fails: nat -> bool) returns (total: seq<byte>, done: bool)
    requires file.Valid() && file.file.Some? && file.file.value.flags.read
    requires forall i :: request(i) > 0
    modifies file`file
    ensures var rest := Tail(file.server.files[old(file.file).value.path], old(file.file).value.pos);
            total <= rest && (done ==> total == rest)
    ensures Steady(fails) ==> done
  {
    ghost var content := file.server.files[file.file.value.path];
    ghost var start := file.file.value.pos;
    total, done := [], false;
    var calls := 0;
    while true
      invariant file.Valid() && file.file.Some? && file.file.value.flags.read
      invariant file.file.value.path == old(file.file).value.path
      invariant file.file.value.pos == start + |total|
      invariant start <= |content| ==> start + |total| <= |content| && total == content[start..start + |total|]
      invariant start > |content| ==> total == []
      decreases |content| - |total|
    {
      var chunk := file.Read(request(calls), fails(calls));
      if chunk.Err? {
        break;
      }
      calls := calls + 1;
      if chunk.value == [] {
        done := true;
        break;
      }
      total := total + chunk.value;
    }
    assert start <= |content| ==> content[start..][..|total|] == content[start..start + |total|];
  }

  /**
   A download broken off at any reads and reopened, each time, at the offset plus the bytes received.
   What it has is always a prefix of the content from the offset on, and all of it once a connection
   reached the empty chunk; the last one does if none of its reads fails.
   */
  method DownloadResuming(server: Server, path: string, offset: nat, request: nat -> nat, connections: seq<nat -> bool>)
    returns (total: seq<byte>, done: bool)
    requires path in server.files && forall i :: request(i) > 0
    modifies server
    ensures server.files == old(server.files)
    ensures total <= Tail(server.files[path], offset)
    ensures done ==> total == Tail(server.files[path], offset)
    ensures connections != [] && Steady(connections[|connections| - 1]) ==> done
  {
    total, done := [], false;
    ghost var content := server.files[path];
    for n := 0 to |connections|
      invariant server.files == old(server.files)
      invariant total <= Tail(content, offset)
      invariant done ==> total == Tail(content, offset)
      invariant n > 0 && Steady(connections[n - 1]) ==> done
    {
      if !done {
        var file := OpenFile(server, path, true, false, offset + |total|, false);
        var more, finished := Download(file.value, request, connections[n]);
        file.value.Disconnect();
        TailSplits(content, offset, total);
        total, done := total + more, finished;
      }
    }
  }

  lemma TailSplits(content: seq<byte>, offset: nat, total: seq<byte>)
    requires total <= Tail(content, offset)
    ensures total + Tail(content, offset + |total|) == Tail(content, offset)
  {
  }

  // ----- an upload as its caller makes it, and its way back

  /** The sending loop over one open handle. */
  method SendPieces(file: RemoteFile, payload: seq<byte>, chunks: seq<Chunk>)
    requires file.Valid() && file.file.Some? && file.file.value.flags.write
    modifies file`file, file.server
    ensures file.server.files == SendChunks(old(file.server.files), old(file.file).value, payload, old(file.file).value.pos, chunks)
  {
    var sent: nat := file.file.value.pos;
    ghost var goal := SendChunks(file.server.files, file.file.value, payload, sent, chunks);
    var i := 0;
    while i < |chunks| && sent < |payload|
      invariant i <= |chunks| && file.Valid() && file.file.Some? && file.file.value.flags.write
      invariant SendChunks(file.server.files, file.file.value, payload, sent, chunks[i..]) == goal
    {
      var piece := payload[sent..Min(sent + chunks[i].size, |payload|)];
      assert chunks[i..][0] == chunks[i] && chunks[i..][1..] == chunks[i + 1..];
      var r := file.Write(piece, Min(chunks[i].applied, |piece|));
      if r.Err? {
        return;
      }
      sent := sent + |piece|;
      i := i + 1;
    }
  }

  /** One connection: open, send, close. */
  method Connect(server: Server, path: string, offset: nat, truncate: bool, payload: seq<byte>, chunks: seq<Chunk>)
    modifies server
    ensures server.files == Connection(old(server.files), path, offset, truncate, payload, chunks)
  {
    var file := OpenFile(server, path, false, truncate, offset, false);
    SendPieces(file.value, payload, chunks);
    file.value.Disconnect();
  }

  /** A truncating connection, then resumptions from the remote length or some way before it. */
  method UploadResuming(server: Server, path: string, payload: seq<byte>, first: seq<Chunk>, later: seq<Attempt>)
    modifies server
    ensures server.files == Upload(old(server.files), path, payload, first, later)
  {
    ConnectionKeepsPath(server.files, path, 0, true, payload, first);
    Connect(server, path, 0, true, payload, first);
    ghost var goal := Resume(server.files, path, payload, later);
    for i := 0 to |later|
      invariant path in server.files && Resume(server.files, path, payload, later[i..]) == goal
    {
      var offset := ResumeAt(|server.files[path]|, later[i].rewind);
      assert later[i..][0] == later[i] && later[i..][1..] == later[i + 1..];
      ConnectionKeepsPath(server.files, path, offset, false, payload, later[i].chunks);
      Connect(server, path, offset, false, payload, later[i].chunks);
    }
  }

  /**
   The round trip: an upload in any chunks with any interruptions and resumptions, then a download
   from any offset in any pieces. What comes back is the payload's, and all of it once the remote
   file has the payload's length.
   */
  method RoundTrip(server: Server, path: string, payload: seq<byte>, first: seq<Chunk>, later: seq<Attempt>,
                   offset: nat, request: nat -> nat) returns (back: seq<byte>, complete: bool)
    requires forall i :: request(i) > 0
    modifies server
    ensures server.files == Upload(old(server.files), path, payload, first, later)
    ensures complete <==> server.files == WholeWrite(old(server.files), path, payload)
    ensures complete <==> |server.files[path]| == |payload|
    ensures complete ==> back == Tail(payload, offset)
    ensures back <= Tail(payload, offset)
  {
    ghost var before := server.files;
    UploadResuming(server, path, payload, first, later);
    complete := |server.files[path]| == |payload|;
    UploadRefinesWholeWrite(before, path, payload, first, later);
    ghost var k := UploadIsPrefix(before, path, payload, first, later);
    assert server.files[path] == payload[..k];
    assert offset <= k ==> payload[..k][offset..] == payload[offset..][..k - offset];
    assert payload[..|payload|] == payload;
    var file := OpenFile(server, path, true, false, offset, false);
    var done;
    back, done := Download(file.value, request, _ => false);
    file.value.Disconnect();
  }

  /** In particular when the last connection is not interrupted and offers enough. */
  lemma CompletesAtLast(fs: FileSystem, path: string, payload: seq<byte>, first: seq<Chunk>,
                        later: seq<Attempt>, last: Attempt)
    requires Intact(last.chunks) && Offered(last.chunks) >= |payload|
    ensures Upload(fs, path, payload, first, later + [last]) == WholeWrite(fs, path, payload)
  {
    ConnectionKeepsPath(fs, path, 0, true, payload, first);
    ResumeAppend(Connection(fs, path, 0, true, payload, first), path, payload, later, [last]);
    LastConnectionCompletes(fs, path, payload, first, later, last);
  }

  lemma {:induction false} ResumeAppend(fs: FileSystem, path: string, payload: seq<byte>, a: seq<Attempt>, b: seq<Attempt>)
    requires path in fs
    ensures Resume(fs, path, payload, a + b) == Resume(Resume(fs, path, payload, a), path, payload, b)
    decreases |a|
  {
    if a == [] {
      assert a + b == b;
    } else {
      assert (a + b)[1..] == a[1..] + b;
      var offset := ResumeAt(|fs[path]|, a[0].rewind);
      ConnectionKeepsPath(fs, path, offset, false, payload, a[0].chunks);
      ResumeAppend(Connection(fs, path, offset, false, payload, a[0].chunks), path, payload, a[1..], b);
    }
  }
}
