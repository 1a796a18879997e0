/** The byte stream that is hashed for a directory tree, and why different trees never share one:
    every path and every content is preceded by its length in eight big-endian bytes. */
module TreeStream {
  import opened Wrappers

  type Byte = b: int | 0 <= b < 256

  type Bytes = seq<Byte>

  /** Paths are relative, as bytes. */
  datatype File = File(path: Bytes, content: Bytes)

  const WIDTH: nat := 8

  /** The lengths that fit are those below 2^64. */
  const LIMIT: nat := 0x1_0000_0000_0000_0000

  // ---------- Lengths ----------

  function Power(k: nat): nat { if k == 0 then 1 else 256 * Power(k - 1) }

  /** n in k big-endian bytes. */
  function BigEndian(n: nat, k: nat): (bytes: Bytes)
    ensures |bytes| == k
  {
    if k == 0 then [] else BigEndian(n / 256, k - 1) + [n % 256]
  }

  function FromBigEndian(bytes: Bytes): nat {
    if bytes == [] then 0 else 256 * FromBigEndian(bytes[..|bytes| - 1]) + bytes[|bytes| - 1]
  }

  lemma {:induction false} NumberRoundTrip(n: nat, k: nat)
    requires n < Power(k)
    ensures FromBigEndian(BigEndian(n, k)) == n
  {
    if k > 0 {
      NumberRoundTrip(n / 256, k - 1);
      assert BigEndian(n, k)[..k - 1] == BigEndian(n / 256, k - 1);
    }
  }

  lemma {:induction false} BytesRoundTrip(bytes: Bytes)
    ensures FromBigEndian(bytes) < Power(|bytes|) && BigEndian(FromBigEndian(bytes), |bytes|) == bytes
  {
    if bytes != [] {
      var k := |bytes| - 1;
      BytesRoundTrip(bytes[..k]);
      assert FromBigEndian(bytes) / 256 == FromBigEndian(bytes[..k]);
      assert bytes == bytes[..k] + [bytes[k]];
    }
  }

  lemma Widths()
    ensures Power(WIDTH) == LIMIT
  {
  }

  // ---------- The stream ----------

  function Framed(bytes: Bytes): Bytes { BigEndian(|bytes|, WIDTH) + bytes }

  function Entry(f: File): Bytes { Framed(f.path) + Framed(f.content) }

  function Encode(files: seq<File>): Bytes {
    if files == [] then [] else Encode(files[..|files| - 1]) + Entry(files[|files| - 1])
  }

  function ContentLength(files: seq<File>): nat {
    if files == [] then 0 else ContentLength(files[..|files| - 1]) + |files[|files| - 1].content|
  }

  predicate Fits(f: File) {
    |f.path| < LIMIT && |f.content| < LIMIT
  }

  ghost predicate AllFit(files: seq<File>) {
    forall i :: 0 <= i < |files| ==> Fits(files[i])
  }

  /** What the digest is fed, file after file, and the total length of the contents. A length
      that does not fit in eight bytes is an error. */
  method Stream(files: seq<File>) returns (result: Option<(Bytes, nat)>)
    ensures result.Some? <==> AllFit(files)
    ensures result.Some? ==> result.value == (Encode(files), ContentLength(files))
  {
    hide Power, BigEndian;
    var fed: Bytes, total := [], 0;
    for i := 0 to |files|
      invariant AllFit(files[..i])
      invariant fed == Encode(files[..i]) && total == ContentLength(files[..i])
    {
      var f := files[i];
      assert files[..i + 1][..i] == files[..i];
      if |f.path| >= LIMIT { return None; }
      fed := fed + BigEndian(|f.path|, WIDTH);
      fed := fed + f.path;
      if |f.content| >= LIMIT { return None; }
      fed := fed + BigEndian(|f.content|, WIDTH);
      fed := fed + f.content;
      total := total + |f.content|;
      assert fed == Encode(files[..i]) + Entry(f);
    }
    assert files[..|files|] == files;
    result := Some((fed, total));
  }

  // ---------- Reading it back ----------

  /** One framed piece off the front: the piece and what follows. */
  function Unframe(stream: Bytes): (r: Option<(Bytes, Bytes)>)
    ensures r.Some? ==> stream == Framed(r.value.0) + r.value.1 && |r.value.0| < LIMIT
  {
    if |stream| < WIDTH then None
    else
      Widths();
      BytesRoundTrip(stream[..WIDTH]);
      var n := FromBigEndian(stream[..WIDTH]);
      if |stream| < WIDTH + n then None
      else
        assert stream == stream[..WIDTH] + stream[WIDTH..WIDTH + n] + stream[WIDTH + n..];
        Some((stream[WIDTH..WIDTH + n], stream[WIDTH + n..]))
  }

  lemma UnframeFramed(piece: Bytes, rest: Bytes)
    requires |piece| < LIMIT
    ensures Unframe(Framed(piece) + rest) == Some((piece, rest))
  {
    var stream := Framed(piece) + rest;
    Widths();
    NumberRoundTrip(|piece|, WIDTH);
    assert stream[..WIDTH] == BigEndian(|piece|, WIDTH);
    assert stream[WIDTH..WIDTH + |piece|] == piece && stream[WIDTH + |piece|..] == rest;
  }

  function Decode(stream: Bytes): Option<seq<File>>
    decreases |stream|
  {
    if stream == [] then Some([])
    else
      match Unframe(stream)
      case None => None
      case Some((path, tail)) =>
        match Unframe(tail)
        case None => None
        case Some((content, rest)) =>
          match Decode(rest)
          case None => None
          case Some(files) => Some([File(path, content)] + files)
  }

  lemma {:induction false} EncodeFront(files: seq<File>)
    requires files != []
    ensures Encode(files) == Entry(files[0]) + Encode(files[1..])
  {
    hide Entry;
    var n := |files| - 1;
    if n == 0 {
      assert files[..0] == [] && files[1..] == [];
    } else {
      EncodeFront(files[..n]);
      var middle := Encode(files[1..n]);
      assert files[..n][1..] == files[1..n] && files[1..][..n - 1] == files[1..n];
      assert (Entry(files[0]) + middle) + Entry(files[n]) == Entry(files[0]) + (middle + Entry(files[n]));
    }
  }

  lemma EncodeNothing()
    ensures Encode([]) == []
  {
  }

  lemma FramedIsLong(piece: Bytes)
    ensures |Framed(piece)| == WIDTH + |piece|
  {
  }

  /** The parser recovers what was written. */
  lemma {:induction false} DecodeEncode(files: seq<File>)
    requires AllFit(files)
    ensures Decode(Encode(files)) == Some(files)
    decreases |files|
  {
    hide Power, BigEndian, Framed, Unframe, Encode;
    if files == [] {
      EncodeNothing();
    } else {
      var f, rest := files[0], Encode(files[1..]);
      EncodeFront(files);
      DecodeEncode(files[1..]);
      UnframeFramed(f.content, rest);
      UnframeFramed(f.path, Framed(f.content) + rest);
      assert Encode(files) == Framed(f.path) + (Framed(f.content) + rest);
      FramedIsLong(f.path);
      assert files == [f] + files[1..];
    }
  }

  /** And it accepts nothing but what could have been written. */
  lemma {:induction false} EncodeDecode(stream: Bytes)
    requires Decode(stream).Some?
    ensures AllFit(Decode(stream).value) && Encode(Decode(stream).value) == stream
    decreases |stream|
  {
    hide Power, BigEndian, Framed, Unframe, Encode;
    if stream == [] {
      EncodeNothing();
    } else {
      var (path, tail) := Unframe(stream).value;
      var (content, rest) := Unframe(tail).value;
      FramedIsLong(path);
      FramedIsLong(content);
      EncodeDecode(rest);
      var files := Decode(stream).value;
      assert files[1..] == Decode(rest).value;
      EncodeFront(files);
      assert stream == Framed(path) + (Framed(content) + rest);
    }
  }

  // ---------- Trees ----------

  type Tree = map<Bytes, Bytes>

  /** The order in which paths are sorted: strict and total. */
  ghost predicate StrictOrder(before: (Bytes, Bytes) -> bool) {
    && (forall a, b :: a != b ==> before(a, b) || before(b, a))
    && (forall a, b :: before(a, b) ==> !before(b, a))
    && (forall a, b, c :: before(a, b) && before(b, c) ==> before(a, c))
  }

  /** The files of a tree, sorted by path. */
  ghost predicate Lists(files: seq<File>, tree: Tree, before: (Bytes, Bytes) -> bool) {
    && (forall f :: f in files <==> f.path in tree && tree[f.path] == f.content)
    && (forall i, j :: 0 <= i < j < |files| ==> before(files[i].path, files[j].path))
  }

  lemma SameFilesSameTree(files: seq<File>, a: Tree, b: Tree, before: (Bytes, Bytes) -> bool)
    requires Lists(files, a, before) && Lists(files, b, before)
    ensures a == b
  {
    forall p ensures p in a ==> p in b && b[p] == a[p] { if p in a { assert File(p, a[p]) in files; } }
    forall p ensures p in b ==> p in a { if p in b { assert File(p, b[p]) in files; } }
  }

  /** A sorted listing is unique. */
  lemma {:induction false} OneListing(xs: seq<File>, ys: seq<File>, before: (Bytes, Bytes) -> bool)
    requires StrictOrder(before) && forall f :: f in xs <==> f in ys
    requires forall i, j :: 0 <= i < j < |xs| ==> before(xs[i].path, xs[j].path)
    requires forall i, j :: 0 <= i < j < |ys| ==> before(ys[i].path, ys[j].path)
    ensures xs == ys
  {
    if xs != [] { assert xs[0] in ys; }
    if ys != [] { assert ys[0] in xs; }
    if xs != [] {
      var i :| 0 <= i < |xs| && xs[i] == ys[0];
      var j :| 0 <= j < |ys| && ys[j] == xs[0];
      assert xs[0] == ys[0];
      forall f ensures f in xs[1..] <==> f in ys[1..] {
        RestOf(xs, f, before);
        RestOf(ys, f, before);
      }
      OneListing(xs[1..], ys[1..], before);
      assert xs == [xs[0]] + xs[1..] && ys == [ys[0]] + ys[1..];
    }
  }

  lemma RestOf(xs: seq<File>, f: File, before: (Bytes, Bytes) -> bool)
    requires StrictOrder(before) && xs != []
    requires forall i, j :: 0 <= i < j < |xs| ==> before(xs[i].path, xs[j].path)
    ensures f in xs[1..] <==> f in xs && f != xs[0]
  {
  }

  /** The stream determines the tree, and the tree the stream. */
  lemma StreamDecidesTree(xs: seq<File>, a: Tree, ys: seq<File>, b: Tree, before: (Bytes, Bytes) -> bool)
    requires StrictOrder(before) && Lists(xs, a, before) && Lists(ys, b, before) && AllFit(xs) && AllFit(ys)
    ensures Encode(xs) == Encode(ys) <==> a == b
  {
    if Encode(xs) == Encode(ys) {
      DecodeEncode(xs);
      DecodeEncode(ys);
      SameFilesSameTree(xs, a, b, before);
    }
    if a == b { OneListing(xs, ys, before); }
  }
}
