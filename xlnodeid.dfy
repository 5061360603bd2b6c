/** The XLattice node identifier `XLNodeID`: an immutable byte string whose
    length is the size of a recognised digest. Construction validates a
    dynamically typed Python argument and raises `XLNodeIDError` on bad
    input; the identifier then offers a copy of its bytes, a clone,
    content-based equality, Python's byte-string ordering, a lowercase hex
    rendering and its length. */
module XLNodeId {
  import opened Wrappers
  import opened Bytes
  import Hex
  import Decimal

  /** Byte lengths of a SHA-1 digest and of a SHA-256 digest (FIPS 180-4),
      and of a SHA3-256 digest (FIPS 202). */
  const Sha1BinLen: nat := 20
  const Sha2BinLen: nat := 32
  const Sha3BinLen: nat := 32

  predicate IsAllowedLength(n: int)
  {
    n == Sha1BinLen || n == Sha2BinLen || n == Sha3BinLen
  }

  datatype Id = Id(bytes: seq<Byte>)

  /** An `XLNodeID`. Its bytes are fixed when it is built: a datatype value
      has no operation that changes it, and handing out its bytes cannot
      expose anything that could. */
  type NodeId = id: Id | IsAllowedLength(|id.bytes|) witness Id(seq(20, _ => 0))

  /** The Python values a caller can pass where an identifier's bytes are
      expected. */
  datatype PyVal =
    | PyNone
    | PyStr(text: string)
    | PyInt(n: int)
    | PyBytes(content: seq<Byte>)
    | PyByteArray(content: seq<Byte>)
    | PyNodeId(id: NodeId)

  /** Python's truth value of `v`, so `not v` is `!Truthy(v)`. An `XLNodeID`
      is judged by its `__len__`, so it is never falsy. */
  function Truthy(v: PyVal): (r: bool)
    ensures v.PyNodeId? ==> r
    ensures !r <==> v in {PyNone, PyStr(""), PyInt(0), PyBytes([]), PyByteArray([])}
  {
    match v
    case PyNone => false
    case PyStr(t) => |t| > 0
    case PyInt(n) => n != 0
    case PyBytes(b) => |b| > 0
    case PyByteArray(b) => |b| > 0
    case PyNodeId(id) => |id.bytes| > 0
  }

  /** `isinstance(v, bytes) or isinstance(v, bytearray)`. */
  predicate IsBytesLike(v: PyVal)
  {
    v.PyBytes? || v.PyByteArray?
  }

  /** The reasons an `XLNodeIDError` is raised with. */
  datatype XLNodeIdError =
    | NoneOrEmpty
    | NotBytesLike
    | InvalidLength(length: nat)

  /** The text the error carries; the length error spells out its length in
      decimal after a fixed prefix. */
  function Message(e: XLNodeIdError): (m: string)
    ensures e.InvalidLength? ==>
              && |m| > 22
              && m[..22] == "invalid nodeID length "
              && (forall k :: 22 <= k < |m| ==> Decimal.IsDigit(m[k]))
              && Decimal.Parse(m[22..]) == e.length
  {
    match e
    case NoneOrEmpty => "id may not be None or empty"
    case NotBytesLike => "NodeID value must be bytes-like"
    case InvalidLength(n) =>
      var m := "invalid nodeID length " + Decimal.Render(n);
      assert m[22..] == Decimal.Render(n);
      Decimal.ParseRender(n);
      m
  }

  /** `XLNodeID(ident)`: the checks run in order (falsy, not bytes-like,
      length not allowed), and the first that fails decides the error. */
  function New(ident: PyVal): (r: Result<NodeId, XLNodeIdError>)
    ensures r.Ok? <==> IsBytesLike(ident) && |ident.content| in {20, 32}
    ensures r.Ok? ==> r.value.bytes == ident.content
    ensures r == Err(NoneOrEmpty) <==> !Truthy(ident)
    ensures r == Err(NotBytesLike) <==> Truthy(ident) && !IsBytesLike(ident)
    ensures r.Err? && r.error.InvalidLength? <==>
              IsBytesLike(ident) && |ident.content| !in {0, 20, 32}
    ensures r.Err? && r.error.InvalidLength? ==> r.error.length == |ident.content|
  {
    if !Truthy(ident) then Err(NoneOrEmpty)
    else if !IsBytesLike(ident) then Err(NotBytesLike)
    else
      var length := |ident.content|;
      if !IsAllowedLength(length) then Err(InvalidLength(length))
      else Ok(Id(ident.content))
  }

  /** `XLNodeID.is_valid_node_id(val)`: the same checks, answered with a
      boolean instead of an exception. */
  function IsValidNodeId(val: PyVal): (ok: bool)
    ensures ok <==> New(val).Ok?
  {
    if !Truthy(val) then false
    else if !val.PyBytes? && !val.PyByteArray? then false
    else
      var length := |val.content|;
      if length != Sha1BinLen && length != Sha2BinLen && length != Sha3BinLen then false
      else true
  }

  /** The `value` property: the identifier's bytes, which build the same
      identifier again. */
  function Value(self: NodeId): (v: seq<Byte>)
    ensures New(PyBytes(v)) == Ok(self)
  {
    self.bytes
  }

  /** `clone()`: never fails, and gives an identifier equal to the original
      with the same bytes. */
  function Clone(self: NodeId): (r: Result<NodeId, XLNodeIdError>)
    ensures r.Ok? && Eq(r.value, PyNodeId(self)) && Value(r.value) == Value(self)
  {
    New(PyBytes(self.bytes))
  }

  /** `self == other`: false for anything but an `XLNodeID`, otherwise
      equality of the bytes, which is equality of the identifiers. */
  function Eq(self: NodeId, other: PyVal): (r: bool)
    ensures r <==> other == PyNodeId(self)
  {
    if !other.PyNodeId? then false
    else self.bytes == Value(other.id)
  }

  /** `self < other`: Python's order on the two byte strings, which is the
      lexicographic order with a proper prefix first. */
  function Lt(self: NodeId, other: NodeId): (r: bool)
    ensures r <==> LexicographicallyBefore(self.bytes, other.bytes)
  {
    LessIsLexicographic(self.bytes, other.bytes);
    Less(self.bytes, Value(other))
  }

  /** `self > other`, which Python answers as `other < self`; it excludes
      `self < other`. */
  function Gt(self: NodeId, other: NodeId): (r: bool)
    ensures r <==> LexicographicallyBefore(other.bytes, self.bytes)
    ensures r ==> !Lt(self, other)
  {
    LessAsymmetric(other.bytes, self.bytes);
    Lt(other, self)
  }

  /** `str(self)`: the bytes in lowercase hex. */
  function Str(self: NodeId): (s: string)
    ensures |s| == 2 * Len(self)
    ensures forall k :: 0 <= k < |s| ==> Hex.IsLowerHexDigit(s[k])
  {
    Hex.Hexlify(self.bytes)
  }

  /** `len(self)`: always one of the digest sizes. */
  function Len(self: NodeId): (n: nat)
    ensures n == |Value(self)|
    ensures n in {20, 32}
  {
    |self.bytes|
  }

  // Construction and validation

  /** Building from a value that passed validation gives back its bytes,
      whether it was `bytes` or `bytearray`. */
  lemma ValueOfNew(ident: PyVal)
    requires New(ident).Ok?
    ensures ident.PyBytes? || ident.PyByteArray?
    ensures Value(New(ident).value) == ident.content
    ensures Len(New(ident).value) == |ident.content|
  {
  }

  /** The inputs the constructor's tests reject and accept, with the reason
      each rejection reports. */
  lemma NewExamples()
    ensures New(PyNone) == Err(NoneOrEmpty)
    ensures New(PyStr("")) == Err(NoneOrEmpty)
    ensures New(PyInt(0)) == Err(NoneOrEmpty)
    ensures New(PyBytes([])) == Err(NoneOrEmpty)
    ensures New(PyStr("foo")) == Err(NotBytesLike)
    ensures New(PyInt(42)) == Err(NotBytesLike)
    ensures New(PyBytes([98, 97, 114])) == Err(InvalidLength(3))
    ensures New(PyBytes(seq(19, _ => 0))) == Err(InvalidLength(19))
    ensures New(PyBytes(seq(21, _ => 0))) == Err(InvalidLength(21))
    ensures New(PyBytes(seq(31, _ => 0))) == Err(InvalidLength(31))
    ensures New(PyBytes(seq(33, _ => 0))) == Err(InvalidLength(33))
    ensures IsValidNodeId(PyBytes(seq(20, _ => 0))) && IsValidNodeId(PyBytes(seq(32, _ => 0)))
    ensures !IsValidNodeId(PyNone) && !IsValidNodeId(PyStr("foo"))
    ensures !IsValidNodeId(PyBytes([98, 97, 114])) && !IsValidNodeId(PyInt(42))
  {
  }

  /** An `XLNodeID` is not itself bytes-like, so it cannot be passed to the
      constructor in place of its bytes. */
  lemma NewRejectsNodeId(id: NodeId)
    ensures New(PyNodeId(id)) == Err(NotBytesLike)
  {
  }

  /** The error text tells the three reasons apart and spells out the
      offending length in decimal. */
  lemma MessageDeterminesError(e1: XLNodeIdError, e2: XLNodeIdError)
    ensures Message(e1) == Message(e2) ==> e1 == e2
  {
    var m1, m2 := Message(e1), Message(e2);
    if e1.InvalidLength? && e2.InvalidLength? {
      var prefix := "invalid nodeID length ";
      assert m1 == prefix + Decimal.Render(e1.length);
      assert m2 == prefix + Decimal.Render(e2.length);
      assert Decimal.Render(e1.length) == m1[|prefix|..];
      assert Decimal.Render(e2.length) == m2[|prefix|..];
      if m1 == m2 {
        Decimal.RenderInjective(e1.length, e2.length);
      }
    } else if e1 != e2 {
      assert m1[0] != m2[0] || m1[1] != m2[1];
    }
  }

  // Equality

  lemma EqReflexive(a: NodeId)
    ensures Eq(a, PyNodeId(a))
  {
  }

  lemma EqSymmetric(a: NodeId, b: NodeId)
    ensures Eq(a, PyNodeId(b)) <==> Eq(b, PyNodeId(a))
  {
  }

  /** Two identifiers built independently are equal exactly when they were
      built from the same bytes, whatever byte type carried them. */
  lemma EqOfNew(v: PyVal, w: PyVal)
    requires New(v).Ok? && New(w).Ok?
    ensures Eq(New(v).value, PyNodeId(New(w).value)) <==> v.content == w.content
  {
  }

  // Ordering

  lemma LtIrreflexive(a: NodeId)
    ensures !Lt(a, a)
  {
    LessIrreflexive(a.bytes);
  }

  lemma LtTransitive(a: NodeId, b: NodeId, c: NodeId)
    requires Lt(a, b) && Lt(b, c)
    ensures Lt(a, c)
  {
    LessTransitive(a.bytes, b.bytes, c.bytes);
  }

  /** Of `a < b`, `b < a` and `a == b`, exactly one holds. */
  lemma LtTrichotomy(a: NodeId, b: NodeId)
    ensures Lt(a, b) || Lt(b, a) || Eq(a, PyNodeId(b))
    ensures !(Lt(a, b) && Lt(b, a))
    ensures Eq(a, PyNodeId(b)) ==> !Lt(a, b) && !Lt(b, a)
  {
    LessAsymmetric(a.bytes, b.bytes);
    LessIrreflexive(a.bytes);
    if a != b {
      LessConnected(a.bytes, b.bytes);
    }
  }

  /** Where the bytes first differ, the byte there decides `<` and `>`. */
  lemma LtAtFirstDifference(a: NodeId, b: NodeId, i: nat)
    requires FirstDifferenceAt(a.bytes, b.bytes, i)
    ensures Lt(a, b) <==> a.bytes[i] < b.bytes[i]
    ensures Gt(a, b) <==> b.bytes[i] < a.bytes[i]
  {
    DecidedAtFirstDifference(a.bytes, b.bytes, i);
  }

  /** A 20-byte identifier that starts a 32-byte one sorts first. */
  lemma LtProperPrefix(a: NodeId, b: NodeId)
    requires IsProperPrefix(a.bytes, b.bytes)
    ensures Lt(a, b) && !Gt(a, b)
  {
    ProperPrefixIsLess(a.bytes, b.bytes);
  }

  /** Identifiers of one length that differ in a single byte compare as that
      byte does, and are not equal. */
  lemma LtOneByteApart(a: NodeId, b: NodeId, i: nat)
    requires |a.bytes| == |b.bytes| && i < |a.bytes|
    requires a.bytes[i] < b.bytes[i]
    requires forall j :: 0 <= j < |a.bytes| && j != i ==> a.bytes[j] == b.bytes[j]
    ensures Lt(a, b) && Gt(b, a) && !Lt(b, a) && !Eq(a, PyNodeId(b))
  {
    assert a.bytes[..i] == b.bytes[..i];
    LtAtFirstDifference(a, b, i);
  }

  // Rendering

  /** Characters `2i` and `2i+1` of `str(id)` are the high and the low
      nibble of byte `i`. */
  lemma StrAt(id: NodeId, i: nat)
    requires i < Len(id)
    ensures Str(id)[2 * i] == Hex.Digit(Hex.High(id.bytes[i]))
    ensures Str(id)[2 * i + 1] == Hex.Digit(Hex.Low(id.bytes[i]))
  {
    Hex.HexlifyAt(id.bytes, i);
  }

  /** Different identifiers render differently. */
  lemma StrInjective(a: NodeId, b: NodeId)
    requires Str(a) == Str(b)
    ensures a == b
  {
    Hex.HexlifyInjective(a.bytes, b.bytes);
  }

  /** Twenty zero bytes build an identifier that renders as forty `0`s. */
  lemma StrOfZeroId()
    ensures New(PyBytes(seq(20, _ => 0))).Ok?
    ensures Str(New(PyBytes(seq(20, _ => 0))).value) == seq(40, _ => '0')
  {
    Hex.ZerosRenderAsZeros(20);
  }
}
