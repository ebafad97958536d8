/** The byte stream a credential-source checksum digests. The hash itself is a
    parameter: what is proved is that nothing is lost before it. */
module SourceChecksum {
  newtype Byte = x: int | 0 <= x < 256

  type Bytes = seq<Byte>

  datatype Credential = Credential(subject: Bytes, secret: Bytes)

  const TWO64: nat := 0x1_0000_0000_0000_0000

  /** The k low-order base-256 digits of n, most significant first. */
  function BigEndian(n: nat, k: nat): Bytes {
    if k == 0 then [] else BigEndian(n / 256, k - 1) + [(n % 256) as Byte]
  }

  function Subjects(entries: seq<Credential>): seq<Bytes> {
    if entries == [] then [] else Subjects(entries[..|entries| - 1]) + [entries[|entries| - 1].subject]
  }

  /** A subject behind its length. */
  function Frame(subject: Bytes): Bytes {
    BigEndian(|subject|, 8) + subject
  }

  function Framed(subjects: seq<Bytes>): Bytes {
    if subjects == [] then []
    else Framed(subjects[..|subjects| - 1]) + Frame(subjects[|subjects| - 1])
  }

  /** The whole stream: the count, then each subject behind its length. */
  function Stream(subjects: seq<Bytes>): Bytes {
    BigEndian(|subjects|, 8) + Framed(subjects)
  }

  /** binary.BigEndian.PutUint64 on the one reused buffer. */
  method PutUint64(buf: array<Byte>, n: nat)
    requires buf.Length == 8
    modifies buf
    ensures buf[..] == BigEndian(n, 8)
  {
    var i, v := 8, n;
    while i > 0
      invariant 0 <= i <= 8
      invariant BigEndian(n, 8) == BigEndian(v, i) + buf[i..]
    {
      i := i - 1;
      buf[i] := (v % 256) as Byte;
      assert buf[i..] == [buf[i]] + buf[i + 1..];
      assert BigEndian(v, i + 1) + buf[i + 1..] == BigEndian(v / 256, i) + buf[i..];
      v := v / 256;
    }
  }

  ghost function Header(entries: seq<Credential>): Bytes {
    BigEndian(|entries|, 8)
  }

  lemma StreamGrows(entries: seq<Credential>, i: nat, before: Bytes, after: Bytes)
    requires i < |entries|
    requires before == Header(entries) + Framed(Subjects(entries[..i]))
    requires after == before + Frame(entries[i].subject)
    ensures after == Header(entries) + Framed(Subjects(entries[..i + 1]))
  {
    assert entries[..i + 1][..i] == entries[..i];
    var shorter := Subjects(entries[..i]);
    assert Subjects(entries[..i + 1]) == shorter + [entries[i].subject];
    assert Subjects(entries[..i + 1])[..|shorter|] == shorter;
  }

  /** One iteration of the digest loop: the length prefix, then the subject bytes. */
  method WriteFrame(written: Bytes, buf: array<Byte>, subject: Bytes) returns (out: Bytes)
    requires buf.Length == 8
    modifies buf
    ensures out == written + Frame(subject)
  {
    PutUint64(buf, |subject|);
    var prefix := buf[..];
    out := written + prefix;
    out := out + subject;
    assert out == written + (prefix + subject);
  }

  method Checksum(entries: seq<Credential>, hash: Bytes -> string) returns (digest: string)
    ensures digest == hash(Stream(Subjects(entries)))
  {
    var n := new Byte[8];
    PutUint64(n, |entries|);
    var written := n[..];
    for i := 0 to |entries|
      invariant written == Header(entries) + Framed(Subjects(entries[..i]))
    {
      var before := written;
      written := WriteFrame(before, n, entries[i].subject);
      StreamGrows(entries, i, before, written);
    }
    assert entries[..|entries|] == entries;
    SubjectsLength(entries);
    digest := hash(written);
  }

  lemma {:induction false} SubjectsLength(entries: seq<Credential>)
    ensures |Subjects(entries)| == |entries|
    ensures forall i :: 0 <= i < |entries| ==> Subjects(entries)[i] == entries[i].subject
  {
    if entries != [] {
      SubjectsLength(entries[..|entries| - 1]);
    }
  }

  lemma {:induction false} BigEndianLength(n: nat, k: nat)
    ensures |BigEndian(n, k)| == k
  {
    if k > 0 {
      BigEndianLength(n / 256, k - 1);
    }
  }

  function Power256(k: nat): nat {
    if k == 0 then 1 else 256 * Power256(k - 1)
  }

  lemma {:induction false} BigEndianInjective(a: nat, b: nat, k: nat)
    requires a < Power256(k) && b < Power256(k)
    requires BigEndian(a, k) == BigEndian(b, k)
    ensures a == b
  {
    if k > 0 {
      BigEndianLength(a / 256, k - 1);
      BigEndianLength(b / 256, k - 1);
      assert BigEndian(a, k)[..k - 1] == BigEndian(a / 256, k - 1);
      assert BigEndian(b, k)[..k - 1] == BigEndian(b / 256, k - 1);
      assert BigEndian(a, k)[k - 1] == (a % 256) as Byte;
      assert BigEndian(b, k)[k - 1] == (b % 256) as Byte;
      BigEndianInjective(a / 256, b / 256, k - 1);
    }
  }

  lemma LengthPrefixInjective(a: nat, b: nat)
    requires a < TWO64 && b < TWO64
    requires BigEndian(a, 8) == BigEndian(b, 8)
    ensures a == b
  {
    assert Power256(8) == TWO64 by {
      assert Power256(2) == 0x1_0000;
      assert Power256(4) == 0x1_0000_0000;
      assert Power256(6) == 0x1_0000_0000_0000;
    }
    BigEndianInjective(a, b, 8);
  }

  /** The same frames read from the front, as a decoder would. */
  lemma {:induction false} FramedFromFront(subjects: seq<Bytes>)
    requires subjects != []
    ensures Framed(subjects) == Frame(subjects[0]) + Framed(subjects[1..])
  {
    if |subjects| > 1 {
      var init := subjects[..|subjects| - 1];
      FramedFromFront(init);
      assert init[1..] == subjects[1..][..|subjects| - 2];
      assert Framed(subjects) == Framed(init) + Frame(subjects[|subjects| - 1]);
    }
  }

  lemma FrameCut(x: Bytes, y: Bytes, s: Bytes, t: Bytes)
    requires |x| < TWO64 && |y| < TWO64
    requires Frame(x) + s == Frame(y) + t
    ensures x == y && s == t
  {
    BigEndianLength(|x|, 8);
    BigEndianLength(|y|, 8);
    assert (Frame(x) + s)[..8] == BigEndian(|x|, 8);
    assert (Frame(y) + t)[..8] == BigEndian(|y|, 8);
    LengthPrefixInjective(|x|, |y|);
    assert (Frame(x) + s)[8..8 + |x|] == x;
    assert (Frame(y) + t)[8..8 + |y|] == y;
    assert (Frame(x) + s)[8 + |x|..] == s;
    assert (Frame(y) + t)[8 + |y|..] == t;
  }

  lemma {:induction false} FramedInjective(a: seq<Bytes>, b: seq<Bytes>)
    requires |a| == |b| && Framed(a) == Framed(b)
    requires forall s :: s in a || s in b ==> |s| < TWO64
    ensures a == b
  {
    if a != [] {
      FramedFromFront(a);
      FramedFromFront(b);
      FrameCut(a[0], b[0], Framed(a[1..]), Framed(b[1..]));
      FramedInjective(a[1..], b[1..]);
      assert a == [a[0]] + a[1..];
      assert b == [b[0]] + b[1..];
    }
  }

  /** The stream determines the pool: equal streams force equal count, order and
      subjects. Every length must fit the 64-bit prefix. */
  lemma StreamInjective(a: seq<Bytes>, b: seq<Bytes>)
    requires |a| < TWO64 && |b| < TWO64
    requires forall s :: s in a || s in b ==> |s| < TWO64
    ensures Stream(a) == Stream(b) <==> a == b
  {
    if Stream(a) == Stream(b) {
      BigEndianLength(|a|, 8);
      BigEndianLength(|b|, 8);
      assert Stream(a)[..8] == BigEndian(|a|, 8);
      assert Stream(b)[..8] == BigEndian(|b|, 8);
      LengthPrefixInjective(|a|, |b|);
      assert Stream(a)[8..] == Framed(a);
      assert Stream(b)[8..] == Framed(b);
      FramedInjective(a, b);
    }
  }

  /** PoolProvider.Acquire: user g is served entry g modulo the pool size. */
  function Acquire(entries: seq<Credential>, g: nat): Credential
    requires entries != []
  {
    entries[g % |entries|]
  }

  /** Two workers that hashed the same stream serve every global index the same
      principal, whatever secrets their entries carry. */
  lemma SameStreamSameAssignment(a: seq<Credential>, b: seq<Credential>, g: nat)
    requires a != [] && b != [] && |a| < TWO64 && |b| < TWO64
    requires forall c :: c in a || c in b ==> |c.subject| < TWO64
    requires Stream(Subjects(a)) == Stream(Subjects(b))
    ensures |a| == |b| && Acquire(a, g).subject == Acquire(b, g).subject
  {
    SubjectsLength(a);
    SubjectsLength(b);
    StreamInjective(Subjects(a), Subjects(b));
    assert Subjects(a)[g % |a|] == Subjects(b)[g % |b|];
  }
}
