/**
 * The receipt upload: which files the form accepts, and how the file's data
 * URL (RFC 2397) is turned into the base64 text sent along with the payment,
 * padded with `=` to a whole number of 4-character groups (section 4 of
 * RFC 4648).
 */
module Upload {
  import opened Wrappers
  import opened Text

  /** What the form reads from a chosen `File`. */
  datatype FileInfo = FileInfo(name: string, size: nat, mimeType: string)

  /** 50 MB, the largest receipt accepted. */
  const MaxReceiptBytes: nat := 50 * 1024 * 1024

  /** The MIME types accepted: JPEG, PNG and PDF. */
  const AcceptedTypes: seq<string> := ["image/jpeg", "image/png", "application/pdf"]

  const TooLargeMessage: string := "Saiz fail melebihi 50MB. Sila pilih fail yang lebih kecil."
  const BadTypeMessage: string := "Format fail tidak disokong. Sila muat naik JPG, PNG, atau PDF."

  /** A file the form keeps. */
  predicate Acceptable(f: FileInfo): (b: bool)
    ensures b ==> f.size <= 52428800
    ensures b ==> f.mimeType == "image/jpeg" || f.mimeType == "image/png" || f.mimeType == "application/pdf"
    ensures f.size <= 52428800 && f.mimeType == "application/pdf" ==> b
  {
    f.size <= MaxReceiptBytes && f.mimeType in AcceptedTypes
  }

  /**
   * Why a chosen file is refused, if it is: the size is checked before the
   * type, so an oversized file of a wrong type is reported as too large.
   */
  function FileProblem(f: FileInfo): (r: Option<string>)
    ensures r.None? <==> Acceptable(f)
    ensures r == Some(TooLargeMessage) <==> f.size > MaxReceiptBytes
    ensures r == Some(BadTypeMessage) <==> f.size <= MaxReceiptBytes && f.mimeType !in AcceptedTypes
  {
    if f.size > MaxReceiptBytes then Some(TooLargeMessage)
    else if f.mimeType !in AcceptedTypes then Some(BadTypeMessage)
    else None
  }

  /** The number of characters before the first line terminator. */
  function LineLength(s: string): (n: nat)
    ensures n <= |s|
    ensures forall k :: 0 <= k < n ==> !IsLineTerminator(s[k])
    ensures n < |s| ==> IsLineTerminator(s[n])
  {
    if s == [] || IsLineTerminator(s[0]) then 0 else 1 + LineLength(s[1..])
  }

  /** The length of the longest prefix of `s` that ends with a comma, or 0 when `s` has none. */
  function LastCommaEnd(s: string): (n: nat)
    ensures n <= |s|
    ensures n > 0 ==> s[n - 1] == ','
    ensures forall k :: n <= k < |s| ==> s[k] != ','
  {
    if s == [] then 0
    else if s[|s| - 1] == ',' then |s|
    else LastCommaEnd(s[..|s| - 1])
  }

  /**
   * The length of the text that `/^data:(.*,)?/` matches: nothing unless `s`
   * starts with `data:`; then `data:` and, since `.` is greedy and refuses line
   * terminators, everything up to the last comma before the first line break.
   */
  function DataUrlPrefix(s: string): (n: nat)
    ensures n <= |s|
    ensures n == 0 <==> !(|s| >= 5 && s[..5] == "data:")
    ensures n > 0 ==> var line := 5 + LineLength(s[5..]);
                      && 5 <= n <= line
                      && (n > 5 ==> s[n - 1] == ',')
                      && forall k :: n <= k < line ==> s[k] != ','
  {
    if |s| >= 5 && s[..5] == "data:" then
      var rest := s[5..];
      var line := rest[..LineLength(rest)];
      5 + LastCommaEnd(line)
    else 0
  }

  /** The string after `replace(/^data:(.*,)?/, '')`. */
  function DataUrlBody(s: string): (r: string)
    ensures |r| <= |s| && r == s[|s| - |r|..]
    ensures |s| - |r| == DataUrlPrefix(s)
    ensures !(|s| >= 5 && s[..5] == "data:") ==> r == s
    ensures |s| >= 5 && s[..5] == "data:" ==> |r| <= |s| - 5
  {
    s[DataUrlPrefix(s)..]
  }

  /** A data URL whose header has no line break and whose payload has no comma yields its payload. */
  lemma DataUrlBodyOfEncoded(header: string, payload: string)
    requires forall k :: 0 <= k < |header| ==> !IsLineTerminator(header[k])
    requires forall k :: 0 <= k < |payload| ==> payload[k] != ','
    ensures DataUrlBody("data:" + header + "," + payload) == payload
  {
    var s := "data:" + header + "," + payload;
    var c := 5 + |header|;
    assert s[..5] == "data:";
    assert s[c] == ',';
    assert forall k :: 5 <= k < c ==> s[k] == header[k - 5];
    assert forall k :: c < k < |s| ==> s[k] == payload[k - c - 1];
    var n := DataUrlPrefix(s);
    assert LineLength(s[5..]) >= |header| + 1 by {
      var rest := s[5..];
      LineLengthOfPrefix(rest, |header| + 1);
    }
    assert n == c + 1;
    assert s[n..] == payload;
  }

  /** A line is at least as long as any prefix free of line terminators. */
  lemma {:induction false} LineLengthOfPrefix(s: string, m: nat)
    requires m <= |s|
    requires forall k :: 0 <= k < m ==> !IsLineTerminator(s[k])
    ensures LineLength(s) >= m
  {
    if m > 0 {
      assert s[1..][..m - 1] == s[1..m];
      LineLengthOfPrefix(s[1..], m - 1);
    }
  }

  /**
   * `encoded` is `body` padded with `=` to the next multiple of four
   * characters: `body` itself, then fewer than four `=`.
   */
  predicate IsPaddedBody(encoded: string, body: string) {
    && |encoded| % 4 == 0
    && |body| <= |encoded| < |body| + 4
    && encoded[..|body|] == body
    && (forall k :: |body| <= k < |encoded| ==> encoded[k] == '=')
  }

  /** The padding is determined by the body: there is one padded form. */
  lemma PaddedBodyIsUnique(e1: string, e2: string, body: string)
    requires IsPaddedBody(e1, body) && IsPaddedBody(e2, body)
    ensures e1 == e2
  {
    if |e1| < |e2| {
      DistinctMultiplesOfFour(|e1|, |e2|);
    } else if |e2| < |e1| {
      DistinctMultiplesOfFour(|e2|, |e1|);
    }
    forall k | 0 <= k < |e1| ensures e1[k] == e2[k] {
      if k < |body| {
        assert e1[k] == e1[..|body|][k] && e2[k] == e2[..|body|][k];
      }
    }
  }

  lemma DistinctMultiplesOfFour(a: nat, b: nat)
    requires a < b && a % 4 == 0 && b % 4 == 0
    ensures b - a >= 4
  {
    assert (b - a) % 4 == 0;
  }

  /** A body that is already a whole number of groups gets no padding. */
  lemma WholeGroupsNeedNoPadding(encoded: string, body: string)
    requires |body| % 4 == 0 && IsPaddedBody(encoded, body)
    ensures encoded == body
  {
    if |body| < |encoded| {
      DistinctMultiplesOfFour(|body|, |encoded|);
    }
  }

  /**
   * `getBase64` once the file has been read as a data URL: strip the header,
   * then pad with `=` up to the next multiple of four characters.
   */
  method GetBase64(dataUrl: string) returns (encoded: string)
    ensures IsPaddedBody(encoded, DataUrlBody(dataUrl))
  {
    encoded := DataUrlBody(dataUrl);
    if |encoded| % 4 > 0 {
      PaddedWithEquals(encoded);
      encoded := encoded + Repeat('=', 4 - |encoded| % 4);
    } else {
      assert encoded[..|encoded|] == encoded;
    }
  }

  /** Appending `4 - |body| % 4` equals signs pads a body that is not a whole number of groups. */
  lemma PaddedWithEquals(body: string)
    requires |body| % 4 > 0
    ensures IsPaddedBody(body + Repeat('=', 4 - |body| % 4), body)
  {
    var pad := 4 - |body| % 4;
    var encoded := body + Repeat('=', pad);
    assert |encoded| == 4 * (|body| / 4) + 4;
    assert encoded[..|body|] == body;
    forall k | |body| <= k < |encoded| ensures encoded[k] == '=' {
      assert encoded[k] == Repeat('=', pad)[k - |body|];
    }
  }

}
