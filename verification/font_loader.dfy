/**
 * The managed font-file loaders DirectWrite calls back into
 * (MS/internal/Text/TextNotStubs.cs): turning a reference key into a font
 * source, and handing out fragments of a font file's bytes.
 *
 * A key is a block of UTF-16 code units given by address and byte size;
 * the code units the size covers are a parameter.  Creating the font
 * source or the COM wrapper is a call into code outside this model: the
 * exception it may throw is a parameter, given as the HRESULT that
 * Marshal.GetHRForException makes of it.
 */
module FontLoaders {
  import opened HResults

  const NUL: char := 0 as char
  const INT_MAX: nat := 0x7FFF_FFFF
  const LONG_MAX: nat := 0x7FFF_FFFF_FFFF_FFFF
  const ULONG_MAX: nat := 0xFFFF_FFFF_FFFF_FFFF

  /** new string(char*): the code units before the first NUL. */
  function UntilNul(s: seq<char>): (r: seq<char>)
    ensures |r| <= |s| && r == s[..|r|]
    ensures NUL !in r
    ensures |r| < |s| ==> s[|r|] == NUL
  {
    if s == [] || s[0] == NUL then [] else [s[0]] + UntilNul(s[1..])
  }

  /**
   * The checks on a key: an output pointer, a whole number of code
   * units, more than one of them, and a NUL as the last.  A key that
   * passes names the text before its first NUL.
   */
  function KeyText(outNull: bool, keySize: nat, key: seq<char>): (r: Option<seq<char>>)
    requires keySize < TWO32 && keySize / 2 <= |key|
    ensures r.None? <==> outNull || keySize % 2 != 0 || keySize / 2 <= 1 || key[keySize / 2 - 1] != NUL
    ensures r.Some? ==> NUL !in r.value && |r.value| < keySize / 2 && r.value == key[..|r.value|]
  {
    var n := keySize / 2;
    if outNull || keySize % 2 != 0 || n <= 1 || key[n - 1] != NUL then None
    else Some(UntilNul(key[..n]))
  }

  /** The outcome of a loader call: its HRESULT and the URI a source was made for. */
  datatype KeyLoad = KeyLoad(hr: HRESULT, uri: Option<seq<char>>)

  /**
   * FontFileLoader.CreateStreamFromKey and
   * FontCollectionLoader.CreateEnumeratorFromKey, which check their keys
   * alike: E_FAIL on a rejected key; otherwise a font source (or a
   * collection enumerator) is created for the key's text, and the result
   * is S_OK or the failure the creation threw.
   */
  function CreateFromKey(outNull: bool, keySize: nat, key: seq<char>, thrown: Option<HRESULT>): (r: KeyLoad)
    requires keySize < TWO32 && keySize / 2 <= |key|
    ensures KeyText(outNull, keySize, key).None? ==> r == KeyLoad(E_FAIL, None)
    ensures KeyText(outNull, keySize, key).Some? ==>
      && (thrown.None? ==> r == KeyLoad(S_OK, KeyText(outNull, keySize, key)))
      && (thrown.Some? ==> r.hr == thrown.value && r.uri.None?)
  {
    match KeyText(outNull, keySize, key)
    case None => KeyLoad(E_FAIL, None)
    case Some(uri) => if thrown.Some? then KeyLoad(thrown.value, None) else KeyLoad(S_OK, Some(uri))
  }

  /** The key DirectWrite is given for a URI: its code units and a terminating NUL. */
  function MakeKey(uri: seq<char>): (key: seq<char>)
    ensures |key| == |uri| + 1 && key[|uri|] == NUL
  {
    uri + [NUL]
  }

  /**
   * A key made from a non-empty URI without NUL is accepted and names that
   * URI; the key of the empty URI (a lone NUL) is rejected.
   */
  lemma KeyRoundTrip(uri: seq<char>)
    requires NUL !in uri && 2 * (|uri| + 1) < TWO32
    ensures uri != [] ==> KeyText(false, 2 * (|uri| + 1), MakeKey(uri)) == Some(uri)
    ensures uri == [] ==> KeyText(false, 2 * (|uri| + 1), MakeKey(uri)).None?
  {
    var key := MakeKey(uri);
    if uri != [] {
      var r := KeyText(false, 2 * (|uri| + 1), key).value;
      assert key[..|uri| + 1] == key;
      if |r| < |uri| {
        assert false;
      }
    }
  }

  /** The outcome of ReadFileFragment: its HRESULT and the bytes handed out. */
  datatype Fragment = Fragment(hr: HRESULT, bytes: Option<seq<byte>>)

  /**
   * The argument checks of ReadFileFragment: both output pointers, an
   * offset that fits a long, a size that fits an int, a sum without
   * 64-bit overflow, and a range within the stream.
   */
  predicate FragmentRejected(outNull: bool, offset: nat, size: nat, length: nat)
  {
    || outNull
    || offset > LONG_MAX
    || size > INT_MAX
    || offset > ULONG_MAX - size
    || offset + size > length
  }

  /**
   * FontFileStream.ReadFileFragment over a stream holding `stream`: E_FAIL
   * on rejected arguments, otherwise the bytes of the range, unless
   * seeking or reading threw.
   */
  function ReadFileFragment(outNull: bool, offset: nat, size: nat, stream: seq<byte>, thrown: Option<HRESULT>): (r: Fragment)
    requires offset <= ULONG_MAX && size <= ULONG_MAX && |stream| <= LONG_MAX
    ensures FragmentRejected(outNull, offset, size, |stream|) ==> r == Fragment(E_FAIL, None)
    ensures !FragmentRejected(outNull, offset, size, |stream|) && thrown.Some? ==> r == Fragment(thrown.value, None)
    ensures !FragmentRejected(outNull, offset, size, |stream|) && thrown.None? ==>
      && r.hr == S_OK && r.bytes.Some? && |r.bytes.value| == size
      && forall k :: 0 <= k < size ==> r.bytes.value[k] == stream[offset + k]
  {
    if FragmentRejected(outNull, offset, size, |stream|) then Fragment(E_FAIL, None)
    else if thrown.Some? then Fragment(thrown.value, None)
    else Fragment(S_OK, Some(stream[offset..offset + size]))
  }

  /**
   * With both pointers given and nothing thrown, a read succeeds exactly
   * when the range lies in the stream and its size fits an int; the
   * long-offset and overflow checks never decide the outcome, because a
   * stream's length is a long.
   */
  lemma FragmentSucceedsIffInRange(offset: nat, size: nat, stream: seq<byte>)
    requires offset <= ULONG_MAX && size <= ULONG_MAX && |stream| <= LONG_MAX
    ensures ReadFileFragment(false, offset, size, stream, None).hr == S_OK <==> offset + size <= |stream| && size <= INT_MAX
    ensures !(offset > ULONG_MAX - size) || offset + size > |stream|
  {
  }

  /** Fragments read back the stream: two adjacent reads give the bytes of one read over both ranges. */
  lemma AdjacentFragments(offset: nat, a: nat, b: nat, stream: seq<byte>)
    requires offset + a + b <= |stream| <= LONG_MAX && a + b <= INT_MAX
    ensures ReadFileFragment(false, offset, a, stream, None).bytes.value
      + ReadFileFragment(false, offset + a, b, stream, None).bytes.value
      == ReadFileFragment(false, offset, a + b, stream, None).bytes.value
  {
    assert stream[offset..offset + a] + stream[offset + a..offset + a + b] == stream[offset..offset + a + b];
  }
}
