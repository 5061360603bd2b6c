# XLNodeID, modelled in Dafny

This project models `XLNodeID`, the node identifier of the Python XLattice
packages. An identifier is an immutable byte string. Its length must be the
size of a recognised digest: 20 bytes (SHA-1) or 32 bytes (SHA-256 and
SHA3-256). The class validates a dynamically typed argument when it is
built. It raises `XLNodeIDError` for a missing or empty value, for a value
that is not `bytes`/`bytearray`, and for a bad length. The check
`is_valid_node_id` runs the same tests without raising. Once built, an
identifier offers:

- its bytes (`value`);
- a clone;
- equality by content;
- Python's byte-string order (`<`);
- a lowercase hex rendering (`str`);
- its length (`len`).

The source is pure: `_node_id` is set once in the constructor and never
changes. The model is therefore a set of datatypes, functions and lemmas.

Files:

- `xlnodeid.dfy`, module `XLNodeId`. It holds:
  - the digest-size constants;
  - `PyVal`, the Python values a caller can pass (`None`, `str`, `int`, `bytes`, `bytearray`, an `XLNodeID`);
  - Python truthiness;
  - `XLNodeIdError`, the three error reasons, and their message text;
  - `NodeId`, a subset type that carries the length invariant;
  - one function per operation, with the lemmas about them.
- `bytes.dfy`, module `Bytes`. It holds the byte type (0..255) and Python's `<` on `bytes`. The lemmas show that this order is the textbook lexicographic order and a strict total order.
- `hex.dfy`, module `Hex`. It holds `binascii.b2a_hex` as lowercase base16 text (section 8 of RFC 4648, lower-case letters). Its inverse is used to prove that the rendering is injective.
- `decimal.dfy`, module `Decimal`. It holds the `%d` rendering used in the "invalid nodeID length" message, and its inverse.
- `wrappers.dfy`, module `Wrappers`. It holds `Option` and `Result`. Exceptions become `Err` values.

Three behaviours of the code that are easy to misread:

- Ordering: the class defines only `__eq__` and `__lt__`. Python answers `>` with the reflected `<`, and `<=`/`>=` do not exist. The model has `Lt`, and `Gt` is `Lt` with its arguments swapped.
- Empty input: an empty `bytes` or `bytearray` is falsy, so it raises the "None or empty" error, not the length error.
- An `XLNodeID` passed to the constructor is truthy (its `__len__` is 20 or 32) and not bytes-like, so it gets the "bytes-like" error.

## Model

| member | source | states |
|---|---|---|
| `XLNodeId.Truthy` | src/xlnodeid/__init__.py:25 | the values `not ident` rejects are exactly None, `''`, `0`, and empty `bytes`/`bytearray`; an identifier is never falsy, because its `__len__` is 20 or 32 |
| `XLNodeId.Message` | src/xlnodeid/__init__.py:26-33 | the text of the three raises; the length error's text is the fixed prefix followed by decimal digits that denote the offending length |
| `XLNodeId.New` | src/xlnodeid/__init__.py:24-36 | succeeds exactly for `bytes`/`bytearray` of length 20 or 32, and then stores those bytes; falsy input (None, `''`, `0`, empty bytes) and only falsy input gives the "None or empty" error; a truthy non-bytes value gives the "bytes-like" error; a bytes-like value of any other non-zero length gives the length error, which carries that length |
| `XLNodeId.IsValidNodeId` | src/xlnodeid/__init__.py:44-57 | returns true exactly when construction succeeds, for every input, including None, text, ints and identifiers, where it answers false instead of raising |
| `XLNodeId.Value` | src/xlnodeid/__init__.py:38-42 | the bytes handed out rebuild the very same identifier |
| `XLNodeId.ValueOfNew` | src/xlnodeid/__init__.py:30-42 | for an input that passed validation, `value` and `len` give back exactly the input's bytes and their count, whether it was `bytes` or `bytearray` |
| `XLNodeId.Clone` | src/xlnodeid/__init__.py:59-61 | cloning never raises, and the clone is equal to the original and has the same `value` |
| `XLNodeId.Eq` | src/xlnodeid/__init__.py:63-66 | `==` is false for anything that is not an identifier, and otherwise holds exactly when the two byte strings are identical |
| `XLNodeId.Lt` | src/xlnodeid/__init__.py:68-69 | `<` holds exactly when the first identifier's bytes are a proper prefix of the second's, or the first differing byte is smaller; the order properties are `Bytes.LessIsLexicographic` and the `Lt*` lemmas |
| `XLNodeId.Gt` | src/xlnodeid/__init__.py:68-69 | `>`, answered by Python as the reflected `<`, is the lexicographic order with the arguments swapped, and excludes `<` |
| `XLNodeId.EqReflexive` | src/xlnodeid/__init__.py:63-66 | every identifier equals itself |
| `XLNodeId.EqSymmetric` | src/xlnodeid/__init__.py:63-66 | `a == b` exactly when `b == a` |
| `XLNodeId.EqOfNew` | src/xlnodeid/__init__.py:24-36 | two identifiers built independently are equal exactly when their inputs had the same bytes, whatever byte type carried them |
| `XLNodeId.LtIrreflexive` | src/xlnodeid/__init__.py:68-69 | no identifier is less than itself |
| `XLNodeId.LtTransitive` | src/xlnodeid/__init__.py:68-69 | `a < b` and `b < c` give `a < c` |
| `XLNodeId.LtTrichotomy` | src/xlnodeid/__init__.py:63-69 | for any two identifiers exactly one of `a < b`, `b < a`, `a == b` holds |
| `XLNodeId.LtAtFirstDifference` | src/xlnodeid/__init__.py:68-69 | where the bytes first differ, the unsigned byte there decides both `<` and `>` |
| `XLNodeId.LtProperPrefix` | src/xlnodeid/__init__.py:68-69 | an identifier whose bytes are a proper prefix of another's is smaller, and not greater |
| `XLNodeId.LtOneByteApart` | tests/test_xlnodeid.py:105-140 | identifiers of one length that differ in one byte compare as that byte does (`<` one way, `>` the other) and are not equal |
| `XLNodeId.Str` | src/xlnodeid/__init__.py:71-72 | the rendering has exactly two characters per byte, all from `0-9a-f` |
| `XLNodeId.StrAt` | src/xlnodeid/__init__.py:71-72 | characters 2i and 2i+1 are the high and the low nibble of byte i |
| `XLNodeId.StrInjective` | src/xlnodeid/__init__.py:71-72 | identifiers that render alike are the same identifier |
| `XLNodeId.StrOfZeroId` | src/xlnodeid/__init__.py:71-72 | twenty zero bytes build an identifier, and it renders as forty `0`s |
| `XLNodeId.Len` | src/xlnodeid/__init__.py:74-75 | `len` is the number of bytes `value` returns and is always 20 or 32 |
| `XLNodeId.NewExamples` | tests/test_xlnodeid.py:24-82 | None, `''`, `0` and empty bytes give the "None or empty" error; `'foo'` and `42` give the "bytes-like" error; `b'bar'` and zero-filled lengths 19, 21, 31 and 33 give the length error with that length; `is_valid_node_id` rejects None, `'foo'`, `b'bar'` and `42` and accepts 20 and 32 zero bytes |
| `XLNodeId.NewRejectsNodeId` | src/xlnodeid/__init__.py:25-28 | an identifier passed as the argument is rejected as not bytes-like |
| `XLNodeId.MessageDeterminesError` | src/xlnodeid/__init__.py:25-33 | the error text tells the three reasons apart, and distinct offending lengths give distinct texts |
| `Bytes.LessIsLexicographic` | src/xlnodeid/__init__.py:68-69 | Python's `<` on bytes holds exactly when the first is a proper prefix of the second, or the first differing byte is smaller |
| `Bytes.DecidedAtFirstDifference` | src/xlnodeid/__init__.py:68-69 | at the first differing position, the unsigned byte order decides `<` in both directions |
| `Bytes.ProperPrefixIsLess` | src/xlnodeid/__init__.py:68-69 | a proper prefix is smaller than, and not greater than, the longer string |
| `Bytes.LessIrreflexive` | src/xlnodeid/__init__.py:68-69 | no byte string is less than itself |
| `Bytes.LessAsymmetric` | src/xlnodeid/__init__.py:68-69 | `a < b` excludes `b < a` |
| `Bytes.LessTransitive` | src/xlnodeid/__init__.py:68-69 | the order is transitive |
| `Bytes.LessConnected` | src/xlnodeid/__init__.py:68-69 | any two different byte strings are ordered one way or the other |
| `Hex.Hexlify` | src/xlnodeid/__init__.py:71-72 | `b2a_hex` yields exactly 2·n characters, all from `0-9a-f` |
| `Hex.HexlifyAt` | src/xlnodeid/__init__.py:71-72 | characters 2i and 2i+1 are the digits of the high and the low nibble of byte i |
| `Hex.UnhexlifyHexlify` | src/xlnodeid/__init__.py:71-72 | decoding the rendering gives back the original bytes |
| `Hex.HexlifyInjective` | src/xlnodeid/__init__.py:71-72 | different byte strings render differently |
| `Hex.ZerosRenderAsZeros` | src/xlnodeid/__init__.py:71-72 | n zero bytes render as 2n `0` digits |
| `Decimal.Render` | src/xlnodeid/__init__.py:33 | `%d` yields at least one decimal digit and no leading zero |
| `Decimal.ParseRender` | src/xlnodeid/__init__.py:33 | the rendered digits denote the rendered number |
| `Decimal.RenderInjective` | src/xlnodeid/__init__.py:33 | different lengths render differently in the error message |

## Left out

- Object identity: `deepcopy` in `__init__`, `value` and `clone`, and the `is not` checks in the tests. Dafny sequences are values and cannot alias, so every copy is independent by construction. No aliasing is modelled.
- `__lt__` against a value that is not an `XLNodeID`: it raises `AttributeError` through `other.value`. This is incidental, so `Lt` takes two identifiers.
- `<=`, `>=` and `__hash__`: the class does not define them. Python 3 makes a class that defines `__eq__` unhashable.
- `__str__` under Python 3: `b2a_hex` returns `bytes`, so `str()` would raise `TypeError`. `Str` models the intended text.
- Python values other than `None`, `str`, `int`, `bytes`, `bytearray` and `XLNodeID` (floats, lists, `memoryview`, and so on). `bool` behaves as the ints 0 and 1.
- The `xlattice` constants: `xlattice` is not part of this model. Its lengths are taken as 20, 32 and 32.
- The version strings `__version__` and `__version_date__`, and the older top-level `xlnodeid/__init__.py`, which holds only the exception class and version strings.
- The message text of `XLNodeIDError` is modelled (`Message`). The exception's Python class hierarchy (`RuntimeError`) is not.
