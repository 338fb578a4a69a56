/** The server object: tables updated in place, one method per handler that changes them.
  * Each is proved to take the step of the state machine in HostFileServer.
  */
module HostFileServerObject {
  import opened BeIo
  import opened Wrappers
  import HostPaths
  import opened HostFileServer
  import Deci3 = Deci3Codec
  import Drfp = DrfpCodec

  class Server {
    var openFiles: map<u32, HostFile>
    var synthFiles: map<u32, Synth>
    var openDirs: map<u32, DirCursor>
    var nextFd: u32
    var transferPaths: set<string>
    var fileServerDir: string
    var cfwDex: bool
    const sfo: seq<byte>

    function Snapshot(): State
      reads this
    {
      State(openFiles, synthFiles, openDirs, nextFd, transferPaths, fileServerDir, sfo)
    }

    constructor (paramSfo: seq<byte>)
      ensures Snapshot() == Start(paramSfo)
    {
      openFiles, synthFiles, openDirs, nextFd := map[], map[], map[], FIRST_FD;
      transferPaths, fileServerDir, cfwDex, sfo := {}, "", false, paramSfo;
    }

    method Reset()
      modifies this`openFiles, this`synthFiles, this`openDirs
      ensures (Snapshot(), None) == Step(old(Snapshot()), ResetTables)
      ensures openFiles == map[] && synthFiles == map[] && openDirs == map[]
    {
      openFiles := map[];
      synthFiles := map[];
      openDirs := map[];
    }

    method SetFileServerDir(dir: string)
      modifies this`fileServerDir
      ensures (Snapshot(), None) == Step(old(Snapshot()), ServeDir(dir))
      ensures fileServerDir == HostPaths.CleanPath(dir)
    {
      var next := if dir == "" then "" else HostPaths.CleanPath(dir);
      if next == fileServerDir {
        return;
      }
      fileServerDir := next;
    }

    method AuthoriseTransferPath(path: string)
      modifies this`transferPaths
      ensures (Snapshot(), None) == Step(old(Snapshot()), Authorise(path))
      ensures transferPaths == old(transferPaths) + set p | p in HostPaths.Chain(path)
    {
      var chain := HostPaths.TransferPathChain(path);
      for i := 0 to |chain|
        invariant transferPaths == Authorised(old(transferPaths), chain[..i])
      {
        transferPaths := transferPaths + {chain[i]};
        assert chain[..i + 1] == chain[..i] + [chain[i]];
      }
      assert chain[..|chain|] == chain;
    }

    method ForgetTransferPath(path: string)
      modifies this`transferPaths
      ensures (Snapshot(), None) == Step(old(Snapshot()), Forget(path))
      ensures transferPaths == old(transferPaths) - {HostPaths.Normalise(path)}
    {
      transferPaths := transferPaths - {HostPaths.Normalise(path)};
    }

    method NewFd() returns (fd: u32)
      modifies this`nextFd
      ensures fd == old(nextFd) && nextFd == Bump(fd)
    {
      fd := nextFd;
      nextFd := Bump(fd);
    }

    method HandleOpen(q: Drfp.Request, h: Host) returns (reply: seq<byte>)
      modifies this`openFiles, this`synthFiles, this`nextFd
      ensures (Snapshot(), reply) == OnOpen(old(Snapshot()), q, h)
    {
      hide OpenReply, PathAt, IsParamSfo, Local, Bump, Flag;
      if |q.payload| < 8 {
        return OpenReply(q, EINVAL, 0);
      }
      var flags := U32At(q.payload, 0);
      var path := PathAt(q.payload, 8);
      var wantWrite := WantsWrite(flags);
      if !wantWrite && IsParamSfo(path) {
        var fd := NewFd();
        synthFiles := synthFiles[fd := Synth(sfo, 0)];
        return OpenReply(q, OK, fd);
      }
      var local := Local(Snapshot(), q, 8);
      if local == "" {
        return OpenReply(q, ENOENT, 0);
      }
      if !h.present && !Flag(flags, CREAT) {
        return OpenReply(q, ENOENT, 0);
      }
      if h.present && Flag(flags, CREAT) && Flag(flags, EXCL) {
        return OpenReply(q, EEXIST, 0);
      }
      var mode := OpenMode(true, false, false, false);
      if Flag(flags, RDWR) {
        mode := OpenMode(true, true, false, false);
      } else if Flag(flags, WRONLY) {
        mode := OpenMode(false, true, false, false);
      }
      if wantWrite && Flag(flags, TRUNC) {
        mode := mode.(truncate := true);
      }
      if wantWrite && Flag(flags, APPEND) {
        mode := mode.(append := true);
      }
      if !h.opens {
        return OpenReply(q, if wantWrite then EIO else ENOENT, 0);
      }
      var fd := NewFd();
      openFiles := openFiles[fd := HostFile(local, mode)];
      return OpenReply(q, OK, fd);
    }

    method HandleClose(q: Drfp.Request) returns (reply: seq<byte>)
      requires q.code == Drfp.CLOSE
      modifies this`openFiles, this`synthFiles
      ensures (Snapshot(), reply) == OnClose(old(Snapshot()), q)
    {
      if |q.payload| < 4 {
        return Result(q, EINVAL);
      }
      var fd := U32At(q.payload, 0);
      if fd in synthFiles {
        synthFiles := synthFiles - {fd};
        return Result(q, OK);
      }
      if fd !in openFiles {
        return Result(q, EBADF);
      }
      openFiles := openFiles - {fd};
      return Result(q, OK);
    }

    method HandleRead(q: Drfp.Request, h: Host) returns (reply: seq<byte>)
      modifies this`synthFiles
      ensures (Snapshot(), reply) == OnRead(old(Snapshot()), q, h)
    {
      hide ReadReply;
      if |q.payload| < 8 {
        return ReadReply(q, EINVAL, []);
      }
      var fd := U32At(q.payload, 0);
      var cap := Cap(U32At(q.payload, 4));
      if fd in synthFiles {
        var f := synthFiles[fd];
        var remaining := |f.content| - f.pos;
        var take := Min(cap, Max(0, remaining));
        var data := Mid(f.content, f.pos, take);
        synthFiles := synthFiles[fd := f.(pos := f.pos + take)];
        return ReadReply(q, OK, data);
      }
      if fd !in openFiles {
        return ReadReply(q, EBADF, []);
      }
      return ReadReply(q, OK, Drfp.Left(h.data, cap));
    }

    method HandleSeek(q: Drfp.Request, h: Host) returns (reply: seq<byte>)
      requires q.code == Drfp.SEEK
      modifies this`synthFiles
      ensures (Snapshot(), reply) == OnSeek(old(Snapshot()), q, h)
    {
      hide SeekReply, Result, Signed;
      if |q.payload| < 16 {
        return Result(q, EINVAL);
      }
      var fd := U32At(q.payload, 0);
      var off := Signed(U64At(q.payload, 4));
      var base := U32At(q.payload, 12);
      if fd in synthFiles {
        var f := synthFiles[fd];
        var target;
        match base {
          case 0 => target := off;
          case 1 => target := f.pos + off;
          case 2 => target := |f.content| + off;
          case _ => return Result(q, EINVAL);
        }
        if target < 0 || target > |f.content| {
          return Result(q, EINVAL);
        }
        synthFiles := synthFiles[fd := f.(pos := target)];
        return SeekReply(q, target);
      }
      if fd !in openFiles {
        return Result(q, EBADF);
      }
      var target := Target(base, h.filePos, h.fileSize, off);
      if target.None? || !h.succeeds {
        return Result(q, EINVAL);
      }
      return SeekReply(q, target.value);
    }

    method HandleDopen(q: Drfp.Request, h: Host) returns (reply: seq<byte>)
      modifies this`openDirs, this`nextFd
      ensures (Snapshot(), reply) == OnDopen(old(Snapshot()), q, h)
    {
      hide Local, Drfp.Build;
      var local := Local(Snapshot(), q, 0);
      if local == "" || !h.present {
        return Drfp.Build(Drfp.DOPEN + 1, q.seqNo, Drfp.DopenBody(ENOENT, 0));
      }
      if !h.isDir {
        return Drfp.Build(Drfp.DOPEN + 1, q.seqNo, Drfp.DopenBody(ENOTDIR, 0));
      }
      var fd := NewFd();
      openDirs := openDirs[fd := DirCursor(h.entries, local, 0)];
      return Drfp.Build(Drfp.DOPEN + 1, q.seqNo, Drfp.DopenBody(OK, fd));
    }

    method HandleDclose(q: Drfp.Request) returns (reply: seq<byte>)
      requires q.code == Drfp.DCLOSE
      modifies this`openDirs
      ensures (Snapshot(), reply) == OnDclose(old(Snapshot()), q)
    {
      if |q.payload| < 4 {
        return Result(q, EINVAL);
      }
      var fd := U32At(q.payload, 0);
      if fd !in openDirs {
        return Result(q, EBADF);
      }
      openDirs := openDirs - {fd};
      return Result(q, OK);
    }

    method HandleDread(q: Drfp.Request, h: Host) returns (reply: seq<byte>)
      modifies this`openDirs
      ensures (Snapshot(), reply) == OnDread(old(Snapshot()), q, h)
    {
      hide DreadReply;
      if |q.payload| < 8 {
        return DreadReply(q, EINVAL, []);
      }
      var fd := U32At(q.payload, 0);
      var nbytes := U32At(q.payload, 4);
      if fd !in openDirs {
        return DreadReply(q, EBADF, []);
      }
      var d := openDirs[fd];
      if d.pos >= |d.entries| || nbytes < Drfp.DIRENT_SIZE {
        return DreadReply(q, OK, []);
      }
      var name := d.entries[d.pos];
      openDirs := openDirs[fd := d.(pos := d.pos + 1)];
      return DreadReply(q, OK, Drfp.Dirent(Kind(h), name));
    }

    /** The dispatcher: at most one reply, in an envelope of its own. */
    method OnFrameReceived(category: u16, payload: seq<byte>, h: Host) returns (sent: Option<Deci3.Frame>)
      modifies this`openFiles, this`synthFiles, this`openDirs, this`nextFd
      ensures var r := Step(old(Snapshot()), Frame(category, payload, h));
        && Snapshot() == r.0
        && sent == (if r.1.Some? then Some(Envelope(cfwDex, r.1.value)) else None)
      ensures sent.Some? ==> sent.value.category == 0x0110 && sent.value.direction == 0x4854 && sent.value.sessionA == 0
                             && sent.value.sessionB == if cfwDex then 0 else 0x0200_0000
    {
      hide OnOpen, OnClose, OnRead, OnDopen, OnDclose, OnDread, OnSeek;
      hide OnInit, OnStat, OnWrite, OnMkdir, OnRmdir, OnFtruncate, OnTruncate, OnRename, OnUnlink, OnFstat, Result;
      if category != CATEGORY {
        return None;
      }
      var parsed := Drfp.Parse(payload);
      if parsed.None? {
        return None;
      }
      hide Drfp.Parse;
      var q := parsed.value;
      var s := Snapshot();
      var reply;
      if q.code == Drfp.INIT { reply := OnInit(q);
      } else if q.code == Drfp.STAT { reply := OnStat(s, q, h);
      } else if q.code == Drfp.OPEN { reply := HandleOpen(q, h);
      } else if q.code == Drfp.CLOSE { reply := HandleClose(q);
      } else if q.code == Drfp.READ { reply := HandleRead(q, h);
      } else if q.code == Drfp.WRITE { reply := OnWrite(s, q, h);
      } else if q.code == Drfp.MKDIR { reply := OnMkdir(s, q, h);
      } else if q.code == Drfp.RMDIR { reply := OnRmdir(s, q, h);
      } else if q.code == Drfp.DOPEN { reply := HandleDopen(q, h);
      } else if q.code == Drfp.DCLOSE { reply := HandleDclose(q);
      } else if q.code == Drfp.DREAD { reply := HandleDread(q, h);
      } else if q.code == Drfp.FTRUNCATE { reply := OnFtruncate(s, q, h);
      } else if q.code == Drfp.TRUNCATE { reply := OnTruncate(s, q, h);
      } else if q.code == Drfp.RENAME { reply := OnRename(s, q, h);
      } else if q.code == Drfp.UNLINK { reply := OnUnlink(s, q, h);
      } else if q.code == Drfp.FSTAT { reply := OnFstat(s, q, h);
      } else if q.code == Drfp.SEEK { reply := HandleSeek(q, h);
      } else { reply := Result(q, ENOENT);
      }
      return Some(Envelope(cfwDex, reply));
    }
  }
}
