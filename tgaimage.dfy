/**
 * saveTGA and loadTGA: uncompressed TGA files with the 18-byte header of the
 * Truevision TGA File Format Specification version 2.0 (header fields 1 to
 * 5) followed by the pixel rows, last row first. Two-byte header fields are
 * little-endian, as that specification requires.
 */
module TgaImage {

  import opened Wrappers
  import opened Images
  import Files

  type short = x: int | -32768 <= x < 32768

  datatype Header = Header(
    idLength: byte, colourMapType: byte, dataTypeCode: byte,
    colourMapOrigin: short, colourMapLength: short, colourMapDepth: byte,
    xOrigin: short, yOrigin: short, width: short, height: short,
    bitsPerPixel: byte, imageDescriptor: byte)

  /** A short as two little-endian two's complement bytes. */
  function ShortBytes(v: short): (r: seq<byte>)
    ensures |r| == 2
  {
    var u := if v < 0 then v + 65536 else v;
    [u % 256, u / 256]
  }

  function ShortOf(lo: byte, hi: byte): short
  {
    var u := lo + 256 * hi;
    if u >= 32768 then u - 65536 else u
  }

  lemma ShortRoundTrip(v: short)
    ensures ShortOf(ShortBytes(v)[0], ShortBytes(v)[1]) == v
  {
  }

  lemma BytesRoundTrip(lo: byte, hi: byte)
    ensures ShortBytes(ShortOf(lo, hi)) == [lo, hi]
  {
  }

  /** The header bytes: one-byte fields at offsets 0, 1, 2, 7, 16 and 17, shorts at 3, 5, 8, 10, 12 and 14. */
  function Encode(h: Header): (r: seq<byte>)
    ensures |r| == 18
  {
    [h.idLength, h.colourMapType, h.dataTypeCode]
    + ShortBytes(h.colourMapOrigin) + ShortBytes(h.colourMapLength)
    + [h.colourMapDepth]
    + ShortBytes(h.xOrigin) + ShortBytes(h.yOrigin)
    + ShortBytes(h.width) + ShortBytes(h.height)
    + [h.bitsPerPixel, h.imageDescriptor]
  }

  /** Where Encode puts each header field. */
  lemma EncodeLayout(h: Header)
    ensures var r := Encode(h);
      && r[0] == h.idLength && r[1] == h.colourMapType && r[2] == h.dataTypeCode
      && r[3..5] == ShortBytes(h.colourMapOrigin) && r[5..7] == ShortBytes(h.colourMapLength)
      && r[7] == h.colourMapDepth
      && r[8..10] == ShortBytes(h.xOrigin) && r[10..12] == ShortBytes(h.yOrigin)
      && r[12..14] == ShortBytes(h.width) && r[14..16] == ShortBytes(h.height)
      && r[16] == h.bitsPerPixel && r[17] == h.imageDescriptor
  {
  }

  /** TGAHeader::setFromArray. */
  function Decode(b: seq<byte>): Header
    requires |b| == 18
  {
    Header(b[0], b[1], b[2], ShortOf(b[3], b[4]), ShortOf(b[5], b[6]), b[7],
           ShortOf(b[8], b[9]), ShortOf(b[10], b[11]), ShortOf(b[12], b[13]), ShortOf(b[14], b[15]),
           b[16], b[17])
  }

  /** setFromArray reads back every field the constructor wrote. */
  lemma DecodeEncode(h: Header)
    ensures Decode(Encode(h)) == h
  {
    var b := Encode(h);
    EncodeLayout(h);
    ShortRoundTrip(h.colourMapOrigin);
    ShortRoundTrip(h.colourMapLength);
    ShortRoundTrip(h.xOrigin);
    ShortRoundTrip(h.yOrigin);
    ShortRoundTrip(h.width);
    ShortRoundTrip(h.height);
    assert b[3] == ShortBytes(h.colourMapOrigin)[0] && b[4] == ShortBytes(h.colourMapOrigin)[1];
    assert b[5] == ShortBytes(h.colourMapLength)[0] && b[6] == ShortBytes(h.colourMapLength)[1];
    assert b[8] == ShortBytes(h.xOrigin)[0] && b[9] == ShortBytes(h.xOrigin)[1];
    assert b[10] == ShortBytes(h.yOrigin)[0] && b[11] == ShortBytes(h.yOrigin)[1];
    assert b[12] == ShortBytes(h.width)[0] && b[13] == ShortBytes(h.width)[1];
    assert b[14] == ShortBytes(h.height)[0] && b[15] == ShortBytes(h.height)[1];
  }

  /** Every 18-byte array is the encoding of the header it decodes to. */
  lemma EncodeDecode(b: seq<byte>)
    requires |b| == 18
    ensures Encode(Decode(b)) == b
  {
    var e := Encode(Decode(b));
    EncodeLayout(Decode(b));
    BytesRoundTrip(b[3], b[4]);
    BytesRoundTrip(b[5], b[6]);
    BytesRoundTrip(b[8], b[9]);
    BytesRoundTrip(b[10], b[11]);
    BytesRoundTrip(b[12], b[13]);
    BytesRoundTrip(b[14], b[15]);
    assert e[3..5] == b[3..5] && e[5..7] == b[5..7];
    assert e[8..10] == b[8..10] && e[10..12] == b[10..12];
    assert e[12..14] == b[12..14] && e[14..16] == b[14..16];
    forall i | 0 <= i < 18 ensures e[i] == b[i] {
      if 3 <= i < 5 { assert e[i] == e[3..5][i - 3]; assert b[i] == b[3..5][i - 3]; }
      else if 5 <= i < 7 { assert e[i] == e[5..7][i - 5]; assert b[i] == b[5..7][i - 5]; }
      else if 8 <= i < 10 { assert e[i] == e[8..10][i - 8]; assert b[i] == b[8..10][i - 8]; }
      else if 10 <= i < 12 { assert e[i] == e[10..12][i - 10]; assert b[i] == b[10..12][i - 10]; }
      else if 12 <= i < 14 { assert e[i] == e[12..14][i - 12]; assert b[i] == b[12..14][i - 12]; }
      else if 14 <= i < 16 { assert e[i] == e[14..16][i - 14]; assert b[i] == b[14..16][i - 14]; }
    }
  }

  /** An image saveTGA accepts: 8-bit unsigned elements with 1, 3 or 4 channels. */
  predicate Saveable(m: Image)
  {
    m.depth == U8 && (m.channels == 1 || m.channels == 3 || m.channels == 4)
  }

  /** The header the TGAHeader constructor builds for a saveable image whose sides fit a short. */
  function HeaderFor(m: Image): (h: Header)
    requires Saveable(m) && m.rows < 32768 && m.cols < 32768
  {
    Header(0, 0, if m.channels >= 3 then 2 else 3, 0, 0, 0, 0, 0, m.cols, m.rows, 8 * m.channels, 0)
  }

  /** The header records the image's shape: type 2 for colour, 3 for grey, 8 bits per channel, cols by rows, all else 0. */
  lemma HeaderForShape(m: Image)
    requires Saveable(m) && m.rows < 32768 && m.cols < 32768
    ensures var b := Encode(HeaderFor(m));
      && b[2] == (if m.channels >= 3 then 2 else 3)
      && b[16] == 8 * m.channels
      && Decode(b).width == m.cols && Decode(b).height == m.rows
      && b[0] == b[1] == b[7] == b[17] == 0
      && b[3..8] == [0, 0, 0, 0, 0] && b[8..12] == [0, 0, 0, 0]
  {
    DecodeEncode(HeaderFor(m));
  }

  /** The number of pixel bytes: rows * cols * channels. */
  function PixelBytes(m: Image): nat
  {
    m.rows * m.cols * m.channels
  }

  /** Rows concatenated last row first. */
  function BottomUp(rows: seq<seq<byte>>): (r: seq<byte>)
  {
    if rows == [] then [] else BottomUp(rows[1..]) + rows[0]
  }

  /** The bytes of a saved image: header, then the rows bottom to top. */
  function TgaBytes(m: Image): seq<byte>
    requires Saveable(m) && m.rows < 32768 && m.cols < 32768
  {
    Encode(HeaderFor(m)) + BottomUp(m.data)
  }

  /** The first n bytes of s, or all of s when it is shorter. */
  function Prefix(s: seq<byte>, n: nat): (r: seq<byte>)
    ensures |r| <= n && |r| <= |s|
  {
    if n <= |s| then s[..n] else s
  }

  lemma PrefixAppend(a: seq<byte>, b: seq<byte>, n: nat)
    requires |Prefix(a, n)| == |a|
    ensures Prefix(a + b, n) == a + Prefix(b, n - |a|)
  {
    if n <= |a| + |b| {
      assert (a + b)[..n] == a + b[..n - |a|];
    }
  }

  /** What the device does: fopen succeeds or not, and it accepts at most `capacity` bytes in all. */
  datatype Device = Device(opens: bool, capacity: nat)

  /** BottomUp of uniform rows has rows * width bytes. */
  lemma {:induction false} BottomUpLength(rows: seq<seq<byte>>, w: nat)
    requires forall r :: 0 <= r < |rows| ==> |rows[r]| == w
    ensures |BottomUp(rows)| == |rows| * w
  {
    if rows != [] {
      BottomUpLength(rows[1..], w);
    }
  }

  /**
   * saveTGA: rejects an image with another depth or channel count before
   * opening the file, then writes the header and each row, last row first.
   * It succeeds iff all rows * cols * channels pixel bytes were written.
   */
  method SaveTga(m: Image, fname: string, fs: Files.FileSystem, dev: Device) returns (ok: bool, written: seq<byte>)
    requires WellFormed(m) && m.rows < 32768 && m.cols < 32768
    modifies fs
    ensures ok <==> Saveable(m) && dev.opens && 18 + PixelBytes(m) <= dev.capacity
    ensures Saveable(m) && dev.opens ==> written == Prefix(TgaBytes(m), dev.capacity) && fs.regular == old(fs.regular) + {fname}
    ensures !(Saveable(m) && dev.opens) ==> written == [] && fs.regular == old(fs.regular)
  {
    written := [];
    if m.depth != U8 {
      return false, [];
    }
    if m.channels != 1 && m.channels != 3 && m.channels != 4 {
      return false, [];
    }
    if !dev.opens {
      return false, [];
    }
    fs.Create(fname);
    var head := Encode(HeaderFor(m));
    written := Prefix(head, dev.capacity);
    if |written| != 18 {
      ok := false;
      BottomUpLength(m.data, m.cols * m.channels);
      PrefixShort(head, BottomUp(m.data), dev.capacity);
      return;
    }
    var bwrote;
    written, bwrote := WriteRows(m, head, dev.capacity);
    SavedAll(m, head, written, dev.capacity);
    ok := bwrote == PixelBytes(m);
  }

  /** The row loop of saveTGA after a complete header: rows last to first, each cut short once the device is full. */
  method WriteRows(m: Image, head: seq<byte>, cap: nat) returns (written: seq<byte>, bwrote: int)
    requires WellFormed(m) && |head| == 18 <= cap
    ensures written == Prefix(head + BottomUp(m.data), cap)
    ensures bwrote == |written| - 18
  {
    written := head;
    bwrote := 0;
    var nc := m.cols * m.channels;
    var i := m.rows - 1;
    while i >= 0
      invariant -1 <= i < m.rows
      invariant written == Prefix(head + RowsFrom(m.data, i + 1), cap)
      invariant bwrote == |written| - 18
      decreases i
    {
      var room := cap - |written|;
      var n := if nc <= room then nc else room;
      WriteRowStep(head, m, i, cap, written, n);
      written := written + m.data[i][..n];
      bwrote := bwrote + n;
      i := i - 1;
    }
    RowsFromAll(m.data);
  }

  /** Rows k.. concatenated last row first: the rows the loop has written once it reaches row k - 1. */
  function RowsFrom(rows: seq<seq<byte>>, k: nat): seq<byte>
    requires k <= |rows|
    decreases |rows| - k
  {
    if k == |rows| then [] else RowsFrom(rows, k + 1) + rows[k]
  }

  /** Once the loop has passed row 0, it has written all rows bottom to top. */
  lemma RowsFromAll(rows: seq<seq<byte>>)
    ensures RowsFrom(rows, 0) == BottomUp(rows)
  {
    RowsFromBottomUp(rows, 0);
    assert rows[0..] == rows;
  }

  lemma {:induction false} RowsFromBottomUp(rows: seq<seq<byte>>, k: nat)
    requires k <= |rows|
    ensures RowsFrom(rows, k) == BottomUp(rows[k..])
    decreases |rows| - k
  {
    if k < |rows| {
      RowsFromBottomUp(rows, k + 1);
      assert rows[k..][1..] == rows[k + 1..];
    } else {
      assert rows[k..] == [];
    }
  }

  /** One pass of saveTGA's row loop keeps the written bytes a prefix of header and rows, bottom to top. */
  lemma WriteRowStep(head: seq<byte>, m: Image, i: int, cap: nat, written: seq<byte>, n: int)
    requires WellFormed(m) && 0 <= i < m.rows
    requires written == Prefix(head + RowsFrom(m.data, i + 1), cap)
    requires n == (if m.cols * m.channels <= cap - |written| then m.cols * m.channels else cap - |written|)
    ensures 0 <= n <= |m.data[i]|
    ensures written + m.data[i][..n] == Prefix(head + RowsFrom(m.data, i), cap)
  {
    assert |m.data[i]| == m.cols * m.channels;
    var a := head + RowsFrom(m.data, i + 1);
    assert head + RowsFrom(m.data, i) == a + m.data[i];
    PrefixStep(a, m.data[i], cap);
  }

  lemma PrefixStep(a: seq<byte>, r: seq<byte>, cap: nat)
    ensures var w := Prefix(a, cap);
      var room := cap - |w|;
      Prefix(a + r, cap) == w + r[..if |r| <= room then |r| else room]
  {
    if cap < |a| {
      assert (a + r)[..cap] == a[..cap];
    } else if cap <= |a| + |r| {
      assert (a + r)[..cap] == a + r[..cap - |a|];
    }
  }

  /** All pixel bytes went out iff the device had room for the whole file. */
  lemma SavedAll(m: Image, head: seq<byte>, written: seq<byte>, cap: nat)
    requires WellFormed(m) && |head| == 18
    requires written == Prefix(head + BottomUp(m.data), cap)
    ensures |written| - 18 == PixelBytes(m) <==> 18 + PixelBytes(m) <= cap
  {
    BottomUpLength(m.data, m.cols * m.channels);
    assert m.rows * (m.cols * m.channels) == m.rows * m.cols * m.channels;
  }

  lemma PrefixShort(a: seq<byte>, b: seq<byte>, n: nat)
    requires n < |a|
    ensures Prefix(a + b, n) == Prefix(a, n)
  {
    assert (a + b)[..n] == a[..n];
  }

  // ---------------------------------------------------------------------------
  // loadTGA

  /** How many body bytes k successive reads of up to nc bytes take from a stream of len bytes. */
  function Consumed(len: nat, k: nat, nc: nat): (r: nat)
    ensures r <= len
  {
    if k == 0 then 0 else
      var c := Consumed(len, k - 1, nc);
      c + (if nc <= len - c then nc else len - c)
  }

  /** Reads stop early only when the stream runs out: k reads take min(len, k * nc) bytes. */
  lemma {:induction false} ConsumedMin(len: nat, k: nat, nc: nat)
    ensures Consumed(len, k, nc) == if len <= k * nc then len else k * nc
  {
    if k > 0 {
      ConsumedMin(len, k - 1, nc);
      assert k * nc == (k - 1) * nc + nc;
    }
  }

  /** The rows filled by k successive reads of up to nc bytes each: the latest read is row 0. */
  function Unstack(body: seq<byte>, k: nat, nc: nat): (r: seq<seq<byte>>)
    ensures |r| == k
  {
    if k == 0 then [] else
      var c := Consumed(|body|, k - 1, nc);
      var n := if nc <= |body| - c then nc else |body| - c;
      [body[c..c + n]] + Unstack(body, k - 1, nc)
  }

  /**
   * a * b, as repeated addition, so that the load specification does not
   * put products before the solver where they are not needed.
   */
  function Product(a: nat, b: nat): nat
  {
    if b == 0 then 0 else Product(a, b - 1) + a
  }

  lemma {:induction false} ProductIs(a: nat, b: nat)
    ensures Product(a, b) == a * b
  {
    if b > 0 {
      ProductIs(a, b - 1);
      assert a * b == a * (b - 1) + a;
    }
  }

  /** What loadTGA returns: a matrix, or an exception from cv::Mat when the header's shape is not one it accepts. */
  datatype Loaded = Returned(m: Image) | Throws

  /**
   * The channels of CV_8UC(bitsperpixel/8): CV_8UC(0) is the type -8, which
   * cv::Mat masks with CV_MAT_TYPE_MASK to its 512-channel (CV_CN_MAX) type.
   */
  function MatChannels(bitsPerPixel: byte): (ch: nat)
    ensures 0 < ch <= 512
    ensures bitsPerPixel >= 8 ==> ch == bitsPerPixel / 8
  {
    if bitsPerPixel / 8 == 0 then 512 else bitsPerPixel / 8
  }

  /**
   * loadTGA on the contents of a file (None when it cannot be opened): an
   * empty matrix on open failure, a short header or a short pixel read;
   * otherwise a height x width matrix of bitsperpixel/8 channels (512 when
   * that is 0) whose rows are read last row first. Image type, id length and
   * colour-map fields are ignored. Negative sides make cv::Mat throw.
   * Byte counts are exact here; loadTGA keeps them in C ints, so a count of
   * 2^31 or more overflows there, which is undefined behaviour.
   */
  function LoadSpec(file: Option<seq<byte>>): Loaded
  {
    match file
    case None => Returned(NoImage())
    case Some(b) =>
      if |b| < 18 then Returned(NoImage())
      else
        var h := Decode(b[..18]);
        var ch := MatChannels(h.bitsPerPixel);
        if h.height < 0 || h.width < 0 then Throws
        else
          var nc := Product(h.width, ch);
          var body := b[18..];
          if Consumed(|body|, h.height, nc) != Product(nc, h.height) then Returned(NoImage())
          else Returned(Image(h.height, h.width, ch, U8, Unstack(body, h.height, nc)))
  }

  method LoadTga(file: Option<seq<byte>>) returns (r: Loaded)
    ensures r == LoadSpec(file)
  {
    if file.None? {
      return Returned(NoImage());
    }
    var b := file.value;
    if |b| < 18 {
      return Returned(NoImage());
    }
    var h := Decode(b[..18]);
    var ch := MatChannels(h.bitsPerPixel);
    if h.height < 0 || h.width < 0 {
      return Throws;
    }
    var nc := h.width * ch;
    ProductIs(h.width, ch);
    var data, bread := ReadRows(b[18..], h.height, nc);
    ProductIs(nc, h.height);
    if bread != nc * h.height {
      return Returned(NoImage());
    }
    r := Returned(Image(h.height, h.width, ch, U8, data));
  }

  /** The row loop of loadTGA: fill rows last to first, each with a read of up to nc bytes from the stream. */
  method ReadRows(body: seq<byte>, rows: nat, nc: nat) returns (data: seq<seq<byte>>, bread: nat)
    ensures data == Unstack(body, rows, nc)
    ensures bread == Consumed(|body|, rows, nc)
  {
    var mat := new seq<byte>[rows](_ => []);
    bread := 0;
    var k := 0;
    while k < rows
      invariant k <= rows
      invariant bread == Consumed(|body|, k, nc)
      invariant mat[rows - k..] == Unstack(body, k, nc)
    {
      var n := if nc <= |body| - bread then nc else |body| - bread;
      var i := rows - 1 - k;
      mat[i] := body[bread..bread + n];
      ReadStep(body, k, nc, mat[i + 1..], mat[i..]);
      bread := bread + n;
      k := k + 1;
    }
    assert mat[0..] == mat[..];
    data := mat[..];
  }

  /** One more read puts the next bytes of the stream in front of the rows read so far. */
  lemma ReadStep(body: seq<byte>, k: nat, nc: nat, done: seq<seq<byte>>, now: seq<seq<byte>>)
    requires done == Unstack(body, k, nc)
    requires now != [] && now[1..] == done
    requires var c := Consumed(|body|, k, nc);
      now[0] == body[c..c + (if nc <= |body| - c then nc else |body| - c)]
    ensures now == Unstack(body, k + 1, nc)
  {
    assert now == [now[0]] + now[1..];
  }

  /** Reading rows depends only on the bytes the reads reach. */
  lemma {:induction false} UnstackPrefix(body: seq<byte>, extra: seq<byte>, k: nat, nc: nat)
    requires k * nc <= |body|
    ensures Unstack(body + extra, k, nc) == Unstack(body, k, nc)
  {
    if k > 0 {
      assert (k - 1) * nc <= k * nc;
      UnstackPrefix(body, extra, k - 1, nc);
      ConsumedMin(|body|, k - 1, nc);
      ConsumedMin(|body + extra|, k - 1, nc);
      var c := (k - 1) * nc;
      assert (body + extra)[c..c + nc] == body[c..c + nc];
    }
  }

  /** Reading back rows written last row first restores them in their original order. */
  lemma {:induction false} UnstackBottomUp(data: seq<seq<byte>>, nc: nat)
    requires forall r :: 0 <= r < |data| ==> |data[r]| == nc
    ensures Unstack(BottomUp(data), |data|, nc) == data
  {
    if data != [] {
      var k := |data| - 1;
      var rest := BottomUp(data[1..]);
      var body := rest + data[0];
      assert BottomUp(data) == body;
      BottomUpLength(data[1..], nc);
      LastRead(rest, data[0], k, nc);
      var c := Consumed(|body|, k, nc);
      assert Unstack(body, k + 1, nc) == [body[c..c + nc]] + Unstack(body, k, nc);
      UnstackPrefix(rest, data[0], k, nc);
      UnstackBottomUp(data[1..], nc);
      assert data == [data[0]] + data[1..];
    }
  }

  /** After k full rows, the (k+1)th read takes the next row whole. */
  lemma LastRead(rest: seq<byte>, row: seq<byte>, k: nat, nc: nat)
    requires |rest| == k * nc && |row| == nc
    ensures var c := Consumed(|rest + row|, k, nc);
      c == k * nc && (rest + row)[c..c + nc] == row
  {
    ConsumedMin(|rest + row|, k, nc);
  }

  /** The file saveTGA writes: the encoded header, then the rows last row first. */
  lemma SavedLayout(m: Image)
    requires WellFormed(m) && Saveable(m) && m.rows < 32768 && m.cols < 32768
    ensures Decode(TgaBytes(m)[..18]) == HeaderFor(m)
    ensures TgaBytes(m)[18..] == BottomUp(m.data)
  {
    var head := Encode(HeaderFor(m));
    assert TgaBytes(m)[..18] == head;
    DecodeEncode(HeaderFor(m));
  }

  /** loadTGA of what saveTGA wrote returns the saved image. */
  lemma LoadSaved(m: Image)
    requires WellFormed(m) && Saveable(m) && m.rows < 32768 && m.cols < 32768
    ensures LoadSpec(Some(TgaBytes(m))) == Returned(m)
  {
    var b := TgaBytes(m);
    SavedLayout(m);
    var nc := m.cols * m.channels;
    BottomUpLength(m.data, nc);
    ConsumedMin(|b| - 18, m.rows, nc);
    ProductIs(m.cols, m.channels);
    ProductIs(nc, m.rows);
    LoadSpecReturns(b, m.rows, m.cols, m.channels);
    UnstackBottomUp(m.data, nc);
  }

  /**
   * A header whose bits per pixel are below 8 gives a 512-channel matrix, so
   * unless the body holds 512 bytes per pixel the pixel read comes up short
   * and loadTGA returns the empty matrix rather than throwing.
   */
  lemma LoadZeroChannels(b: seq<byte>)
    requires |b| >= 18 && Decode(b[..18]).bitsPerPixel < 8
    requires Decode(b[..18]).height > 0 && Decode(b[..18]).width > 0
    requires |b| - 18 < 512 * Decode(b[..18]).width as int * Decode(b[..18]).height as int
    ensures LoadSpec(Some(b)) == Returned(NoImage())
  {
    var h := Decode(b[..18]);
    var w, rows := h.width as nat, h.height as nat;
    var nc := Product(w, 512);
    ProductIs(w, 512);
    ProductIs(nc, rows);
    ConsumedMin(|b| - 18, rows, nc);
    assert rows * nc == 512 * w * rows;
  }

  /** LoadSpec of a file whose header gives a shape and whose body holds every row. */
  lemma LoadSpecReturns(b: seq<byte>, rows: nat, cols: nat, ch: nat)
    requires |b| >= 18 && ch > 0
    requires Decode(b[..18]).height as int == rows && Decode(b[..18]).width as int == cols
    requires Decode(b[..18]).bitsPerPixel as int == 8 * ch
    requires Consumed(|b| - 18, rows, Product(cols, ch)) == Product(Product(cols, ch), rows)
    ensures LoadSpec(Some(b)) == Returned(Image(rows, cols, ch, U8, Unstack(b[18..], rows, Product(cols, ch))))
  {
    var h := Decode(b[..18]);
    assert h.bitsPerPixel / 8 == ch as byte by {
      assert (8 * ch) / 8 == ch;
    }
  }


}
