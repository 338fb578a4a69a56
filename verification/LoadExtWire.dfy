/** The load request told by its bytes: which paths go out as they are, where a command line is
  * cut, and what the fixed tail holds where no option goes.
  */
module LoadExtWire {
  import opened BeIo
  import opened Wrappers
  import opened LoadExt

  /** The bytes of a plain text. */
  function Ascii(s: string): (b: seq<byte>)
    requires forall i :: 0 <= i < |s| ==> s[i] as int < 0x80
    ensures |b| == |s|
  {
    seq(|s|, i requires 0 <= i < |s| => s[i] as int)
  }

  lemma PrefixBytes()
    ensures Ascii("/app_home/") == APP_HOME && Ascii("/dev_") == DEV && Ascii("/host_root/") == HOST_ROOT
    ensures Ascii("HOME=") == HOME
  {
  }

  /** The console's own paths go out as they are. */
  lemma OwnPathsStay(file: seq<byte>)
    requires Ascii("/app_home/") <= file || Ascii("/dev_") <= file || Ascii("/host_root/") <= file
    ensures WirePath(file) == file
  {
    PrefixBytes();
  }

  /** Any other path goes out as what follows its last slash, below /app_home/. */
  lemma HostPathsKeepTheirName(front: seq<byte>, name: seq<byte>)
    requires 0x2F !in name && (front == [] || front[|front| - 1] == 0x2F)
    requires var file := front + name;
             !(Ascii("/app_home/") <= file || Ascii("/dev_") <= file || Ascii("/host_root/") <= file)
    ensures WirePath(front + name) == Ascii("/app_home/") + name
  {
    hide Ascii, FileName;
    PrefixBytes();
    NameOf(front, name);
  }

  lemma {:induction false} NameOf(front: seq<byte>, name: seq<byte>)
    requires 0x2F !in name && (front == [] || front[|front| - 1] == 0x2F)
    ensures FileName(front + name) == name
    decreases |name|
  {
    if name == [] {
      assert front + name == front;
    } else {
      var n := |name| - 1;
      assert (front + name)[..|front + name| - 1] == front + name[..n];
      assert name[n] in name;
      NameOf(front, name[..n]);
      assert name == name[..n] + [name[n]];
    }
  }

  // ---------- the command line ----------

  /** A space, tab, line feed, vertical tab, form feed or carriage return. */
  predicate IsSeparator(c: byte) {
    c == 32 || c == 9 || c == 10 || c == 11 || c == 12 || c == 13
  }

  /** Each such byte cuts the line, and nothing else does: the arguments on either side are those
    * of the two halves, and a piece without any is one argument. */
  lemma {:induction false} SeparatorsCut(a: seq<byte>, c: byte, b: seq<byte>)
    requires IsSeparator(c)
    ensures Words(a + [c] + b) == Words(a) + Words(b)
    decreases |a|
  {
    var s := a + [c] + b;
    if a == [] {
      assert s[1..] == b;
      assert Words([]) + Words(b) == Words(b);
    } else if IsSpace(a[0]) {
      assert s[1..] == a[1..] + [c] + b;
      SeparatorsCut(a[1..], c, b);
    } else {
      var n := WordLength(a);
      CutLength(a, c, b);
      assert s[..n] == a[..n] && s[n..] == a[n..] + [c] + b;
      assert n > 0;
      SeparatorsCut(a[n..], c, b);
    }
  }

  lemma {:induction false} CutLength(a: seq<byte>, c: byte, b: seq<byte>)
    requires IsSeparator(c)
    ensures WordLength(a + [c] + b) == WordLength(a)
  {
    if a != [] && !IsSpace(a[0]) {
      assert (a + [c] + b)[1..] == a[1..] + [c] + b;
      CutLength(a[1..], c, b);
    }
  }

  lemma OneArgument(w: seq<byte>)
    requires w != [] && forall i :: 0 <= i < |w| ==> !IsSeparator(w[i])
    ensures Words(w) == [Text(w)]
  {
    AllWord(w);
    assert w[..|w|] == w && w[|w|..] == [];
  }

  lemma {:induction false} AllWord(w: seq<byte>)
    requires forall i :: 0 <= i < |w| ==> !IsSeparator(w[i])
    ensures WordLength(w) == |w|
  {
    if w != [] {
      AllWord(w[1..]);
    }
  }

  /** The home directory is the only environment, and only when there is one. */
  lemma HomeIsTheEnvironment(homeDir: seq<byte>)
    ensures Environment(homeDir) == if homeDir == [] then [] else [Text(Ascii("HOME=") + homeDir)]
  {
    PrefixBytes();
  }

  // ---------- the tail ----------

  /** The last 148 bytes of every body: what no option writes is zero. */
  lemma UnusedBytesAreZero(i: Image, k: nat)
    requires k < 148 && (8 <= k < 20 || 60 <= k)
    ensures |Body(i)| >= 148 && Body(i)[|Body(i)| - 148 + k] == 0
  {
    hide BigEndian, Listed;
    var t := Tail(i);
    TailLength(i);
    assert Body(i)[|Body(i)| - 148..] == t;
    hide Body;
    TailZeros(i, k);
  }

  lemma TailLength(i: Image)
    ensures |Tail(i)| == 148
  {
  }

  lemma TailZeros(i: Image, k: nat)
    requires k < 148 && (8 <= k < 20 || 60 <= k)
    ensures |Tail(i)| == 148 && Tail(i)[k] == 0
  {
    ZeroWord();
    ZeroHalf();
    hide BigEndian;
    var t := Tail(i);
    assert t[8..12] == BigEndian(4, 0) && t[12..20] == BigEndian(8, 0);
    assert t[60..] == Zeros(88);
    if 8 <= k < 12 {
      assert t[8..12][k - 8] == t[k];
    } else if k < 20 {
      assert t[12..20][k - 12] == t[k];
    } else {
      assert t[60..][k - 60] == t[k];
    }
  }

  lemma ZeroHalf()
    ensures BigEndian(4, 0) == Zeros(4)
  {
  }
}
