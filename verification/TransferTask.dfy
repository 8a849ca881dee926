/** OfflineTransferTask, PC path (file_server/transfer_task.cpp:262-733, transfer_task.h:20-335): a
    sender uploads a file segment by segment, the server checks its MD5, receivers download it
    segment by segment, possibly after interruptions, new logins or a restart of the server. */
module TransferTask {
  import opened Bytes
  import opened Wrappers
  import opened OfflineHeaders

  const SEGMENT_SIZE: nat := 32768
  const MAX_SIZE: nat := 0x8000_0000 - SEGMENT_SIZE

  datatype TaskState = Ready | WaitingUpload | Uploading | UploadEnd | WaitingDownload | Downloading | DownloadEnd

  datatype Role = Upload | Download | OtherRole

  // ---- Segments ----

  function Segments(size: nat): nat { size / SEGMENT_SIZE + if size % SEGMENT_SIZE != 0 then 1 else 0 }

  /** GetNextSegmentBlockSize. */
  function BlockSize(size: nat, idx: nat): int {
    if idx + 1 == Segments(size) then size - idx * SEGMENT_SIZE else SEGMENT_SIZE
  }

  /** How many bytes the first k segments hold. */
  function Prefix(size: nat, k: nat): nat { if k < Segments(size) then k * SEGMENT_SIZE else size }

  /** Blocks tile the file: each is nonempty and ends where the next one starts, the last at the end. */
  lemma BlocksTile(size: nat, k: nat)
    requires 1 <= size && k < Segments(size)
    ensures 1 <= BlockSize(size, k) <= SEGMENT_SIZE
    ensures Prefix(size, k) == k * SEGMENT_SIZE < size
    ensures Prefix(size, k) + BlockSize(size, k) == Prefix(size, k + 1) <= size
    ensures Prefix(size, k + 1) == size <==> k + 1 == Segments(size)
    ensures size <= MAX_SIZE ==> k * SEGMENT_SIZE % TWO32 == k * SEGMENT_SIZE
  {
  }

  // ---- The file and its header ----

  /** Any text without a NUL is a task id; the MD5 text must survive being a format string for 64 bytes. */
  predicate Writable(id: Text, sum: Text) { Clean(id) && Clean(sum) && |sum| < 64 && '%' as int !in sum }

  function HeaderFor(id: Text, from: Uint32, to: Uint32, size: nat, sum: Text, created: Text): Header {
    Header(id, Decimal(from), Decimal(to), created, Decimal(size), sum)
  }

  lemma HeaderFits(id: Text, from: Uint32, to: Uint32, size: nat, sum: Text, created: Text)
    requires Writable(id, sum) && size <= MAX_SIZE && |created| < 128 && Clean(created)
    ensures Fits(HeaderFor(id, from, to, size, sum, created))
  {
    Widths(from);
    Widths(to);
    Widths(size);
  }

  /** What a restart needs to find the same task in the header: room for the terminator of the id (or bytes that
      happen to agree), and user ids that atoi reads back. */
  predicate Restorable(id: Text, from: Uint32, to: Uint32, wide: int -> Uint32) {
    (|id| < 128 || id[128..] == Decimal(from)) && (from < TWO31 || wide(from) == from) && (to < TWO31 || wide(to) == to)
  }

  /** The file of one task id. */
  class Disk {
    var file: Option<seq<Byte>>

    constructor ()
      ensures file == None
    {
      file := None;
    }
  }

  /** FILE*: closed, appending, appending to a file that has been removed, or reading at a position. */
  datatype Handle = Closed | Writing | Orphan | Reading(pos: nat)

  class Task {
    const disk: Disk
    const md5: seq<Byte> -> Text
    const taskId: Text
    const fromUser: Uint32
    const toUser: Uint32
    const size: nat
    const sum: Text
    const segments: nat

    var state: TaskState
    var handle: Handle
    var idx: nat

    /** The bytes accepted from the sender, and whether the upload has been accepted as a whole. */
    ghost var uploaded: seq<Byte>
    ghost var complete: bool
    /** A full file that was not verified, because its MD5 did not match or could not be computed, was left behind. */
    ghost var unverified: bool
    ghost var header: seq<Byte>
    ghost var created: Text
    /** The bytes handed out since the current download began. */
    ghost var got: seq<Byte>

    /** The header written with the first block. */
    function HeaderAt(now: Text): Header { HeaderFor(taskId, fromUser, toUser, size, sum, now) }

    /** The file is the header and what was uploaded. */
    ghost predicate Stored()
      reads this`header, this`uploaded, this`created, this`complete, this`unverified, disk
    {
      Writable(taskId, sum) && |header| == HEADER_SIZE &&
      (disk.file.Some? ==>
         disk.file.value == header + uploaded && Fits(HeaderAt(created)) && header == Encode(HeaderAt(created))) &&
      (complete ==> disk.file.Some? && |uploaded| == size && md5(uploaded) == sum) &&
      (unverified ==> !complete && disk.file.Some? && |uploaded| >= size) &&
      (!complete && !unverified && disk.file.Some? ==> |uploaded| < size)
    }

    ghost predicate Valid()
      reads this, disk
    {
      Stored() && 1 <= size <= MAX_SIZE && segments == Segments(size) &&
      match state
      case Ready | WaitingUpload => !complete && disk.file == None && handle == Closed && idx == 0 && uploaded == []
      case Uploading =>
        !complete &&
        if handle == Orphan then disk.file == None
        else
          handle == Writing && disk.file.Some? &&
          if unverified then idx >= segments else idx < segments && |uploaded| == Prefix(size, idx)
      case UploadEnd => complete && handle == Closed
      case WaitingDownload => idx == 0
      case Downloading =>
        disk.file.Some? && idx < segments && handle.Reading? && got <= uploaded && |got| == Prefix(size, idx) &&
        (handle.pos == HEADER_SIZE + |got| ||
         (!complete && !unverified && handle.pos == HEADER_SIZE + |uploaded|))
      case DownloadEnd => (complete || unverified) && handle == Closed && idx == 0
    }

    /** A new task: its id is fresh, so its file does not exist. */
    constructor (
      d: Disk, hash: seq<Byte> -> Text, id: Text, from: Uint32, to: Uint32, bytes: nat, digest: Text)
      requires d.file == None && Writable(id, digest) && 1 <= bytes <= MAX_SIZE
      ensures Valid() && disk == d && state == Ready && !complete && !unverified && uploaded == []
      ensures md5 == hash && taskId == id && fromUser == from && toUser == to && size == bytes && sum == digest
    {
      disk, md5, taskId, fromUser, toUser, size, sum := d, hash, id, from, to, bytes, digest;
      segments := Segments(bytes);
      state, handle, idx := Ready, Closed, 0;
      uploaded, complete, unverified, got, header, created := [], false, false, [], Zeros(HEADER_SIZE), [];
    }

    ghost predicate IsLoaded(h: Header, wide: int -> Uint32)
      reads this, disk
    {
      taskId == h.taskId && fromUser == String2Int(h.fromUser, wide) && toUser == String2Int(h.toUser, wide) &&
      size == String2Int(h.size, wide) && sum == h.md5 && segments == Segments(size) && state == WaitingDownload &&
      handle == Closed && idx == 0 && complete && !unverified && created == h.createTime && |header| == HEADER_SIZE &&
      disk.file == Some(header + uploaded) && |uploaded| == size && h == Decode(header)
    }

    /** The task LoadFromDisk makes of a header and the bytes that follow it. */
    constructor Loaded(d: Disk, hash: seq<Byte> -> Text, h: Header, wide: int -> Uint32)
      requires d.file.Some? && |d.file.value| >= HEADER_SIZE && h == Decode(d.file.value[..HEADER_SIZE])
      requires String2Int(h.size, wide) == |d.file.value| - HEADER_SIZE
      ensures disk == d && md5 == hash && IsLoaded(h, wide)
    {
      disk, md5, taskId, size, sum := d, hash, h.taskId, String2Int(h.size, wide), h.md5;
      fromUser, toUser := String2Int(h.fromUser, wide), String2Int(h.toUser, wide);
      segments := Segments(String2Int(h.size, wide));
      state, handle, idx := WaitingDownload, Closed, 0;
      uploaded, header, created := d.file.value[HEADER_SIZE..], d.file.value[..HEADER_SIZE], h.createTime;
      complete, unverified, got := true, false, [];
      new;
      assert d.file.value == header + uploaded;
    }

    /** ChangePullState. A refused transition leaves the state alone, whatever is returned. */
    method ChangePullState(user: nat, role: Role) returns (rv: bool)
      requires Valid()
      modifies this`state, this`idx
      ensures Valid()
      ensures rv <==> (role == Upload && user == fromUser) || (role == Download && user == toUser)
      ensures old(state) == Ready ==> state == if rv && role == Upload then WaitingUpload else Ready
      ensures old(state) != Ready ==> state == if rv && role == Download then WaitingDownload else old(state)
      ensures idx == if state == WaitingDownload && rv && role == Download then 0 else old(idx)
    {
      rv := (role == Upload && user == fromUser) || (role == Download && user == toUser);
      if !rv {
        return;
      }
      if state == Ready {
        if role == Upload {
          state := WaitingUpload;
        }
      } else if role == Download {
        state := WaitingDownload;
        idx := 0;
      }
    }

    /** Is an uploaded block of this offset taken into the file? */
    predicate Accepts(user: nat, offset: nat, opens: bool)
      reads this
    {
      user == fromUser && offset == idx * SEGMENT_SIZE % TWO32 &&
      ((state == WaitingUpload && |taskId| >= 2 && opens) || (state == Uploading && handle == Writing))
    }

    /** DoRecvData: one uploaded block. `opens`, `hashes` and `removes` say whether the file can be opened, its MD5
        computed and the file removed; `now` is the creation time. The caller's buffer holds at least the next block. */
    method RecvData(user: nat, offset: nat, data: seq<Byte>, opens: bool, hashes: bool, removes: bool, now: nat)
      returns (rv: int)
      requires Valid() && |data| >= BlockSize(size, idx) && now < TWO31 * TWO32
      modifies this, disk
      ensures Valid()
      ensures old(complete) ==> complete && uploaded == old(uploaded) && disk.file == old(disk.file) && rv == -1
      ensures rv == 1 <==> complete && !old(complete)
      ensures old(unverified) ==> unverified
      ensures old(Accepts(user, offset, opens)) ==> uploaded == old(uploaded) + data[..BlockSize(size, old(idx))]
      ensures old(Accepts(user, offset, opens)) && !old(unverified) ==>
                if |uploaded| < size then
                  rv == 0 && state == Uploading && idx == old(idx) + 1 && handle == Writing && !unverified
                else
                  |uploaded| == size &&
                  if hashes && md5(uploaded) == sum then rv == 1 && state == UploadEnd && !unverified
                  else
                    rv == -1 && state == Uploading &&
                    if hashes && removes then disk.file == None && !unverified
                    else disk.file == Some(header + uploaded) && unverified
      ensures !old(Accepts(user, offset, opens)) ==> uploaded == old(uploaded) && rv != 1 && unverified == old(unverified)
      ensures user != fromUser || offset != old(idx) * SEGMENT_SIZE % TWO32 ||
              !(old(state).WaitingUpload? || old(state).Uploading?) ==>
                rv == -1 && uploaded == old(uploaded) && state == old(state) && idx == old(idx) &&
                disk.file == old(disk.file) && handle == old(handle)
      ensures user == fromUser && offset == 0 && old(state) == WaitingUpload && |taskId| >= 2 && opens ==>
                uploaded == data[..BlockSize(size, 0)]
      ensures user == fromUser && old(state) == WaitingUpload && offset == 0 && !(|taskId| >= 2 && opens) ==>
                rv == -1 && state == WaitingUpload && disk.file == old(disk.file)
      ensures created == if old(state) == WaitingUpload && old(Accepts(user, offset, opens)) then Decimal(now) else old(created)
      ensures (user == fromUser && offset == old(idx) * SEGMENT_SIZE % TWO32 && old(state) == Uploading &&
               old(handle) == Writing) ==> uploaded == old(uploaded) + data[..BlockSize(size, old(idx))]
    {
      hide Fits, Encode, Writable, Decimal;
      rv := -1;
      if user != fromUser || (state != WaitingUpload && state != Uploading) || offset != idx * SEGMENT_SIZE % TWO32 {
        return;
      }
      var n := BlockSize(size, idx);
      if state == WaitingUpload {
        if |taskId| < 2 || !opens {
          return;
        }
        BeginUpload(now);
      }
      if handle != Writing {
        idx := idx + 1;
        rv := if idx == segments then -1 else 0;
      } else if idx >= segments {
        AppendMore(data[..n]);
        rv := 0;
      } else {
        AppendBlock(data[..n]);
        if idx == segments {
          rv := Verify(hashes, removes);
        } else {
          rv := 0;
        }
      }
    }

    /** A block beyond the end of a file that was left behind. */
    method AppendMore(block: seq<Byte>)
      requires Valid() && state == Uploading && handle == Writing && idx >= segments
      modifies this`idx, this`uploaded, disk
      ensures Valid() && uploaded == old(uploaded) + block
    {
      hide Fits, Encode, Writable, Decimal;
      disk.file := Some(disk.file.value + block);
      uploaded := uploaded + block;
      idx := idx + 1;
      assert disk.file.value == header + uploaded;
    }

    /** The last block has arrived: compare the MD5, and remove the file if it differs. */
    method Verify(hashes: bool, removes: bool) returns (rv: int)
      requires Writable(taskId, sum) && 1 <= size <= MAX_SIZE && segments == Segments(size) && |header| == HEADER_SIZE
      requires !complete && !unverified && state == Uploading && handle == Writing && idx == segments
      requires Fits(HeaderAt(created)) && header == Encode(HeaderAt(created)) && |uploaded| == size
      requires disk.file == Some(header + uploaded)
      modifies this`state, this`handle, this`complete, this`unverified, disk
      ensures Valid() && (complete <==> hashes && md5(uploaded) == sum)
      ensures if complete then rv == 1 && state == UploadEnd && !unverified && disk.file == old(disk.file)
              else rv == -1 && state == Uploading &&
                   if hashes && removes then disk.file == None && !unverified
                   else disk.file == old(disk.file) && unverified
    {
      rv := -1;
      if hashes {
        assert disk.file.value[HEADER_SIZE..] == uploaded;
        if md5(disk.file.value[HEADER_SIZE..]) == sum {
          state, handle := UploadEnd, Closed;
          complete := true;
          rv := 1;
          return;
        }
        if removes {
          disk.file := None;
          handle := Orphan;
          return;
        }
      }
      unverified := true;
    }

    /** The first block: open the file and write its header. */
    method BeginUpload(now: nat)
      requires Valid() && state == WaitingUpload && now < TWO31 * TWO32
      modifies this`state, this`handle, this`header, this`created, disk
      ensures state == Uploading && handle == Writing && |header| == HEADER_SIZE
      ensures created == Decimal(now) && Fits(HeaderAt(created))
      ensures header == Encode(HeaderAt(created)) && disk.file == Some(header + uploaded)
    {
      Widths(now);
      HeaderFits(taskId, fromUser, toUser, size, sum, Decimal(now));
      var h := FillHeader(HeaderAt(Decimal(now)));
      disk.file := Some(h);
      handle, header, created := Writing, h, Decimal(now);
      state := Uploading;
      assert header + uploaded == header;
    }

    /** fwrite and the index update. */
    method AppendBlock(block: seq<Byte>)
      requires 1 <= size && segments == Segments(size) && idx < segments && |header| == HEADER_SIZE
      requires |block| == BlockSize(size, idx) && |uploaded| == Prefix(size, idx)
      requires disk.file.Some? && disk.file.value == header + uploaded
      modifies this`idx, this`uploaded, disk
      ensures idx == old(idx) + 1 && uploaded == old(uploaded) + block && |uploaded| == Prefix(size, idx)
      ensures (|uploaded| == size <==> idx == segments) && |uploaded| <= size
      ensures disk.file == Some(header + uploaded) && disk.file.value[HEADER_SIZE..] == uploaded
    {
      BlocksTile(size, idx);
      disk.file := Some(disk.file.value + block);
      uploaded := uploaded + block;
      idx := idx + 1;
      assert disk.file.value == header + uploaded;
    }

    /** Opening the file for a download: close, open by name, skip the header. */
    method BeginDownload(opens: bool) returns (ok: bool)
      requires Valid() && state == WaitingDownload
      modifies this`handle, this`idx, this`state, this`got
      ensures Valid() && (ok <==> |taskId| >= 2 && opens && disk.file.Some?)
      ensures (complete || unverified) && |taskId| >= 2 && opens ==> ok
      ensures ok ==> state == Downloading && idx == 0 && got == [] && handle == Reading(HEADER_SIZE)
      ensures !ok ==> state == WaitingDownload
    {
      idx := 0;
      handle := Closed;
      ok := |taskId| >= 2 && opens && disk.file.Some?;
      if ok {
        BlocksTile(size, 0);
        handle := Reading(HEADER_SIZE);
        state := Downloading;
        got := [];
      }
    }

    /** DoPullFileRequest in PC mode: one downloaded block. A download that finishes has handed out
        exactly the uploaded file, and only its last block returns 1. A file left behind unverified is
        served as well, up to the announced size. */
    method PullData(offset: nat, opens: bool) returns (rv: int, data: seq<Byte>)
      requires Valid()
      modifies this`handle, this`idx, this`state, this`got
      ensures Valid() && (rv == -1 || rv == 0 || rv == 1)
      ensures rv == -1 ==> data == []
      ensures offset != (if old(state) == WaitingDownload then 0 else old(idx)) * SEGMENT_SIZE % TWO32 ==> rv == -1
      ensures old(state) != WaitingDownload && old(state) != Downloading ==>
                rv == -1 && state == old(state) && idx == old(idx) && handle == old(handle)
      ensures rv >= 0 ==>
                0 < |data| && offset + |data| <= |uploaded| && data == uploaded[offset..offset + |data|] &&
                got == (if old(state) == WaitingDownload then [] else old(got)) + data && |got| <= size
      ensures rv == 1 ==> (complete || unverified) && got == uploaded[..size] && state == DownloadEnd
      ensures rv == 1 && complete ==> got == uploaded
      ensures rv == 0 ==> |got| < size && state == Downloading
      ensures (complete || unverified) && old(state) == Downloading && offset == |old(got)| ==> rv >= 0
      ensures (complete || unverified) && old(state) == WaitingDownload && offset == 0 && opens && |taskId| >= 2 ==>
                rv >= 0
    {
      hide Prefix, Segments, BlockSize, Stored;
      rv, data := -1, [];
      if state != WaitingDownload && state != Downloading {
        return;
      }
      if state == WaitingDownload {
        var ok := BeginDownload(opens);
        if !ok {
          return;
        }
      }
      BlocksTile(size, idx);
      if offset != idx * SEGMENT_SIZE % TWO32 {
        return;
      }
      var ok: bool;
      ok, data := ReadBlock();
      if !ok {
        return;
      }
      if idx == segments {
        state, handle, idx := DownloadEnd, Closed, 0;
        rv := 1;
      } else {
        rv := 0;
      }
    }

    /** fread of the next block; a short read consumes what is left of the file. */
    method ReadBlock() returns (ok: bool, data: seq<Byte>)
      requires Valid() && state == Downloading
      modifies this`handle, this`idx, this`got
      ensures complete || unverified ==> ok
      ensures !ok ==> Valid() && data == []
      ensures ok ==>
                idx == old(idx) + 1 && got == old(got) + data && 0 < |data| && got <= uploaded &&
                |got| == Prefix(size, idx) && |got| <= size && (|got| == size <==> idx == segments) &&
                handle == Reading(HEADER_SIZE + |got|) &&
                (|got| == size ==> (complete || unverified) && got == uploaded[..size]) &&
                (|got| == size && complete ==> got == uploaded)
    {
      hide Fits, Encode, Writable, Decimal, Segments, Prefix, BlockSize;
      BlocksTile(size, idx);
      ok, data := false, [];
      var bytes := disk.file.value;
      var n := BlockSize(size, idx);
      if |bytes| - handle.pos < n {
        handle := Reading(|bytes|);
        return;
      }
      assert handle.pos == HEADER_SIZE + |got|;
      ok, data := true, bytes[handle.pos..handle.pos + n];
      assert data == uploaded[|got|..|got| + n];
      handle := Reading(handle.pos + n);
      got := got + data;
      idx := idx + 1;
      assert got == uploaded[..|got|];
    }
  }

  /** LoadFromDisk. A file whose length does not match its header is refused; the file of a
      completed upload gives a task that serves the same bytes. */
  method LoadFromDisk(d: Disk, hash: seq<Byte> -> Text, id: Text, opens: bool, wide: int -> Uint32) returns (t: Task?)
    ensures t != null <==>
              |id| >= 2 && opens && d.file.Some? && |d.file.value| >= HEADER_SIZE &&
              String2Int(Decode(d.file.value[..HEADER_SIZE]).size, wide) == |d.file.value| - HEADER_SIZE
    ensures t != null ==>
              fresh(t) && t.disk == d && t.md5 == hash && t.IsLoaded(Decode(d.file.value[..HEADER_SIZE]), wide)
  {
    t := null;
    if |id| < 2 || !opens || d.file.None? || |d.file.value| < HEADER_SIZE {
      return;
    }
    var bytes := d.file.value;
    var h := Decode(bytes[..HEADER_SIZE]);
    if String2Int(h.size, wide) != |bytes| - HEADER_SIZE {
      return;
    }
    t := new Task.Loaded(d, hash, h, wide);
  }

  /** The header of a completed upload, read back. */
  lemma Restored(id: Text, from: Uint32, to: Uint32, size: nat, sum: Text, created: Text, wide: int -> Uint32)
    requires size <= MAX_SIZE && Fits(HeaderFor(id, from, to, size, sum, created))
    ensures var h := Decode(Encode(HeaderFor(id, from, to, size, sum, created)));
            h.md5 == sum && h.createTime == created && String2Int(h.size, wide) == size &&
            (h.taskId == id && String2Int(h.fromUser, wide) == from && String2Int(h.toUser, wide) == to <==>
             Restorable(id, from, to, wide))
  {
    hide Encode, Decode, String2Int, Decimal;
    HeaderBack(HeaderFor(id, from, to, size, sum, created));
    DecimalBack(from, wide);
    DecimalBack(to, wide);
    DecimalBack(size, wide);
  }

  /** After a restart of the server a task with the completed upload is loaded from disk. It is the same task, and
      serves the same bytes, exactly when id and users fit what the header can hold. */
  method Restart(t: Task, opens: bool, wide: int -> Uint32) returns (u: Task?)
    requires t.Valid() && t.complete
    ensures u != null <==> |t.taskId| >= 2 && opens
    ensures u != null ==> fresh(u) && u.complete && u.uploaded == t.uploaded && u.size == t.size && u.sum == t.sum
    ensures u != null ==>
              (u.taskId == t.taskId && u.fromUser == t.fromUser && u.toUser == t.toUser <==>
               Restorable(t.taskId, t.fromUser, t.toUser, wide))
    ensures u != null && Restorable(t.taskId, t.fromUser, t.toUser, wide) ==> u.Valid() && u.disk == t.disk
  {
    hide Encode, Decode, String2Int, Decimal, Fits;
    assert t.disk.file.value[..HEADER_SIZE] == t.header && t.disk.file.value[HEADER_SIZE..] == t.uploaded;
    Restored(t.taskId, t.fromUser, t.toUser, t.size, t.sum, t.created, wide);
    u := LoadFromDisk(t.disk, t.md5, t.taskId, opens, wide);
    if u != null {
      assert u.disk.file.value[..HEADER_SIZE] == u.header && u.disk.file.value[HEADER_SIZE..] == u.uploaded;
    }
  }

  /** How an upload of x ends: verified, removed, or left behind. */
  ghost predicate Ended(t: Task, x: seq<Byte>, hashes: bool, removes: bool)
    reads t, t.disk
  {
    t.Valid() && t.uploaded == x && (t.complete <==> hashes && t.md5(x) == t.sum) &&
    (t.complete ==> t.state == UploadEnd && !t.unverified) &&
    (!t.complete ==> t.state == Uploading && (t.unverified <==> !(hashes && removes))) &&
    (t.complete || t.unverified ==> t.disk.file == Some(t.header + x)) &&
    (!t.complete && !t.unverified ==> t.disk.file == None)
  }

  /** A sender that uploads x in order, one block at a time, until the server stops asking. */
  method SendAll(t: Task, x: seq<Byte>, hashes: bool, removes: bool, now: nat)
    requires t.Valid() && t.state == Ready && |x| == t.size && |t.taskId| >= 2 && now < TWO31 * TWO32
    modifies t, t.disk
    ensures Ended(t, x, hashes, removes)
  {
    var rv := 0;
    var started := t.ChangePullState(t.fromUser, Upload);
    BlocksTile(t.size, 0);
    while rv == 0
      invariant t.Valid() && t.uploaded <= x
      invariant rv == 0 ==>
        !t.unverified && !t.complete && t.idx < t.segments && |t.uploaded| == Prefix(t.size, t.idx) &&
        (t.state == WaitingUpload || (t.state == Uploading && t.handle == Writing))
      invariant rv != 0 ==> Ended(t, x, hashes, removes)
      decreases t.size - |t.uploaded|, rv == 0
    {
      hide Prefix, Segments, Decimal, Fits, Encode, Writable;
      BlocksTile(t.size, t.idx);
      var n := BlockSize(t.size, t.idx);
      var at := t.idx * SEGMENT_SIZE;
      var block := x[at..at + n];
      assert t.uploaded + block[..n] == x[..at + n];
      assert |x[..at + n]| == |x| ==> x[..at + n] == x;
      rv := t.RecvData(t.fromUser, at, block, true, hashes, removes, now);
    }
  }

  /** A receiver that logs in and pulls block after block until the server says it was the last. */
  method ReceiveAll(t: Task) returns (data: seq<Byte>)
    requires t.Valid() && (t.complete || t.unverified) && |t.taskId| >= 2
    modifies t
    ensures t.Valid() && t.state == DownloadEnd && t.got == data && data == t.uploaded[..t.size]
    ensures t.uploaded == old(t.uploaded) && t.complete == old(t.complete) && t.unverified == old(t.unverified)
  {
    hide Decimal, Segments, BlockSize, Prefix, Fits, Encode, Writable;
    data := [];
    var rv := 0;
    var started := t.ChangePullState(t.toUser, Download);
    while rv == 0
      invariant t.Valid() && t.uploaded == old(t.uploaded) && t.complete == old(t.complete)
      invariant t.unverified == old(t.unverified)
      invariant rv == 0 ==> (t.state == WaitingDownload && data == []) || (t.state == Downloading && data == t.got)
      invariant rv == 0 || (rv == 1 && t.state == DownloadEnd && data == t.got == t.uploaded[..t.size])
      invariant |data| <= t.size
      decreases t.size - |data|
    {
      var block;
      rv, block := t.PullData(|data|, true);
      data := data + block;
    }
  }

  /** Upload, restart of the server, download: the receiver gets the uploaded bytes, after any
      earlier download was cut off anywhere. */
  method UploadRestartDownload(t: Task, x: seq<Byte>, now: nat, pulls: seq<nat>, wide: int -> Uint32)
    returns (u: Task, data: seq<Byte>)
    requires t.Valid() && t.state == Ready && |x| == t.size && t.md5(x) == t.sum && |t.taskId| >= 2
    requires now < TWO31 * TWO32 && Restorable(t.taskId, t.fromUser, t.toUser, wide)
    modifies t, t.disk
    ensures Ended(t, x, true, true) && t.complete
    ensures fresh(u) && u.Valid() && u.taskId == t.taskId && u.disk == t.disk && u.complete && u.uploaded == x
    ensures u.state == DownloadEnd && u.got == data == x
  {
    SendAll(t, x, true, true, now);
    u := Restart(t, true, wide);
    var login := u.ChangePullState(u.toUser, Download);
    for i := 0 to |pulls|
      invariant u.Valid() && u.complete && u.uploaded == x && Ended(t, x, true, true)
    {
      var rv, block := u.PullData(pulls[i], true);
    }
    data := ReceiveAll(u);
  }

  /** The same from nothing, for every file of 1 byte to 2 GiB less one segment: a fresh disk and a new task, an
      upload, a restart, interrupted pulls and a download. */
  method TransferFile(x: seq<Byte>, hash: seq<Byte> -> Text, id: Text, from: Uint32, to: Uint32, now: nat, pulls: seq<nat>)
    returns (t: Task, u: Task, data: seq<Byte>)
    requires 1 <= |x| <= MAX_SIZE && 2 <= |id| < 128 && Writable(id, hash(x))
    requires from < TWO31 && to < TWO31 && now < TWO31 * TWO32
    ensures t.taskId == u.taskId == id && t.disk == u.disk && Ended(t, x, true, true) && t.complete
    ensures u.Valid() && u.complete && u.uploaded == x && u.state == DownloadEnd && u.got == data == x
  {
    var d := new Disk();
    t := new Task(d, hash, id, from, to, |x|, hash(x));
    u, data := UploadRestartDownload(t, x, now, pulls, _ => 0);
  }

  /** A file whose MD5 does not match, or could not be computed, and which could not be removed is served all the same:
      the server reports the upload as failed and a download as finished. */
  method UnverifiedServed(x: seq<Byte>, hash: seq<Byte> -> Text, sum: Text, id: Text, hashes: bool, removes: bool, now: nat)
    returns (t: Task, data: seq<Byte>)
    requires 1 <= |x| <= MAX_SIZE && 2 <= |id| && Writable(id, sum) && now < TWO31 * TWO32
    requires !(hashes && hash(x) == sum) && !(hashes && removes)
    ensures t.Valid() && t.sum == sum && !t.complete && t.unverified && t.uploaded == x
    ensures t.state == DownloadEnd && t.got == data == x
  {
    var d := new Disk();
    t := new Task(d, hash, id, 0, 1, |x|, sum);
    SendAll(t, x, hashes, removes, now);
    data := ReceiveAll(t);
    assert x[..t.size] == x;
  }
}
