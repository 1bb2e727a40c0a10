/** The encryption heuristic and the decryption decision shared by the two PDF
    scripts. Running qpdf itself is outside the model: whether it is installed
    is an input. */
module PdfUtils {
  import opened Results
  import opened JsText

  newtype byte = x: int | 0 <= x < 256

  /** How many leading bytes the heuristic looks at. */
  const SEARCH_LENGTH: nat := 10000

  /** The dictionary key an encrypted PDF's trailer carries. */
  const ENCRYPT_MARKER: string := "/Encrypt"

  /** The same marker as the bytes it is written with. */
  const MARKER_BYTES: seq<byte> := [0x2F, 0x45, 0x6E, 0x63, 0x72, 0x79, 0x70, 0x74]

  const QPDF_INSTALL_MSG: string :=
    "PDF is encrypted but qpdf is not installed.\n" +
    "Install it:\n" +
    "  Windows:  choco install qpdf\n" +
    "  macOS:    brew install qpdf\n" +
    "  Linux:    apt install qpdf"

  /** `buffer.toString("latin1")`: every byte becomes the character with the same code. */
  function Latin1(bytes: seq<byte>): (r: string)
    ensures |r| == |bytes|
    ensures forall i | 0 <= i < |bytes| :: r[i] as int == bytes[i] as int
  {
    if bytes == [] then [] else [(bytes[0] as int) as char] + Latin1(bytes[1..])
  }

  function Min(a: nat, b: nat): nat {
    if a < b then a else b
  }

  /** `isPdfEncrypted`: the latin1 text of the first 10000 bytes mentions "/Encrypt". */
  function IsPdfEncrypted(buffer: seq<byte>): bool {
    var searchLength := Min(|buffer|, SEARCH_LENGTH);
    Includes(Latin1(buffer[..searchLength]), ENCRYPT_MARKER)
  }

  /** Decoding keeps codes, so it tells different byte strings apart. */
  lemma Latin1Injective(a: seq<byte>, b: seq<byte>)
    requires Latin1(a) == Latin1(b)
    ensures a == b
  {
    assert forall k | 0 <= k < |a| :: a[k] as int == Latin1(a)[k] as int == b[k] as int;
  }

  lemma Latin1Slice(bytes: seq<byte>, i: nat, j: nat)
    requires i <= j <= |bytes|
    ensures Latin1(bytes)[i..j] == Latin1(bytes[i..j])
  {
  }

  lemma Latin1OfMarker()
    ensures Latin1(MARKER_BYTES) == ENCRYPT_MARKER
  {
    var m := Latin1(MARKER_BYTES);
    assert m[0] == '/' && m[1] == 'E' && m[2] == 'n' && m[3] == 'c';
    assert m[4] == 'r' && m[5] == 'y' && m[6] == 'p' && m[7] == 't';
  }

  /** Searching the decoded text for the decoding of `pat` is searching the
      bytes for `pat`: latin1 decoding is one character per byte and keeps codes. */
  lemma Latin1Search(bytes: seq<byte>, pat: seq<byte>)
    ensures Includes(Latin1(bytes), Latin1(pat)) <==> Includes(bytes, pat)
  {
    var text, p := Latin1(bytes), Latin1(pat);
    var n := |pat|;
    forall i | 0 <= i <= |bytes| - n
      ensures OccursAt(text, p, i) <==> OccursAt(bytes, pat, i)
    {
      Latin1Slice(bytes, i, i + n);
      if OccursAt(text, p, i) {
        Latin1Injective(bytes[i..i + n], pat);
      }
    }
    if Includes(text, p) {
      var i :| 0 <= i <= |text| - n && OccursAt(text, p, i);
      IncludesAt(bytes, pat, i);
    }
    if Includes(bytes, pat) {
      var i :| 0 <= i <= |bytes| - n && OccursAt(bytes, pat, i);
      IncludesAt(text, p, i);
    }
  }

  /** Searching the decoded text for "/Encrypt" is searching the bytes for
      the marker's codes. */
  lemma Latin1SearchIsByteSearch(bytes: seq<byte>)
    ensures Includes(Latin1(bytes), ENCRYPT_MARKER) <==> Includes(bytes, MARKER_BYTES)
  {
    Latin1OfMarker();
    Latin1Search(bytes, MARKER_BYTES);
  }

  /** The result is true exactly when the marker's eight bytes lie entirely
      within the first `min(length, 10000)` bytes. */
  lemma EncryptedIffMarkerInWindow(buffer: seq<byte>)
    ensures IsPdfEncrypted(buffer) <==>
      exists i | 0 <= i && i + 8 <= Min(|buffer|, SEARCH_LENGTH) :: OccursAt(buffer, MARKER_BYTES, i)
  {
    var window := buffer[..Min(|buffer|, SEARCH_LENGTH)];
    Latin1SearchIsByteSearch(window);
    forall i | 0 <= i && i + 8 <= |window|
      ensures OccursAt(window, MARKER_BYTES, i) <==> OccursAt(buffer, MARKER_BYTES, i)
    {
      assert window[i..i + 8] == buffer[i..i + 8];
    }
  }

  /** Bytes at index 10000 or later never change the answer. */
  lemma TailIsIgnored(buffer: seq<byte>, tail: seq<byte>)
    requires |buffer| >= SEARCH_LENGTH
    ensures IsPdfEncrypted(buffer + tail) == IsPdfEncrypted(buffer)
  {
    assert (buffer + tail)[..SEARCH_LENGTH] == buffer[..SEARCH_LENGTH];
  }

  /** A buffer shorter than the marker is never reported as encrypted. */
  lemma ShortBufferIsClear(buffer: seq<byte>)
    requires |buffer| < |MARKER_BYTES|
    ensures !IsPdfEncrypted(buffer)
  {
    EncryptedIffMarkerInWindow(buffer);
  }

  /** Appending bytes to a buffer reported as encrypted keeps it reported. */
  lemma AppendKeepsEncrypted(buffer: seq<byte>, tail: seq<byte>)
    requires IsPdfEncrypted(buffer)
    ensures IsPdfEncrypted(buffer + tail)
  {
    EncryptedIffMarkerInWindow(buffer);
    EncryptedIffMarkerInWindow(buffer + tail);
    var i :| 0 <= i && i + 8 <= Min(|buffer|, SEARCH_LENGTH) && OccursAt(buffer, MARKER_BYTES, i);
    assert (buffer + tail)[i..i + 8] == buffer[i..i + 8];
    assert OccursAt(buffer + tail, MARKER_BYTES, i);
  }

  datatype DecryptError = QpdfMissing(message: string)

  /** What both PDF scripts do before reading: decrypt an encrypted file unless
      told to skip, and stop with the install message when qpdf is missing.
      `Ok(decrypted)` says whether the buffer was replaced by qpdf's output. */
  function DecryptionStep(encrypted: bool, skipDecryption: bool, qpdfAvailable: bool): (r: Result<bool, DecryptError>)
    ensures r.Err? <==> encrypted && !skipDecryption && !qpdfAvailable
    ensures r.Err? ==> r.error.message == QPDF_INSTALL_MSG
    ensures r.Ok? ==> (r.value <==> encrypted && !skipDecryption)
  {
    if encrypted && !skipDecryption then
      if !qpdfAvailable then Err(QpdfMissing(QPDF_INSTALL_MSG)) else Ok(true)
    else Ok(false)
  }
}
