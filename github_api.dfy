/**
 * The pure helpers of github_api.py: `preparePath`, `prepareContent`, and the
 * decoding step of `get_content`. The REST calls around them are not
 * modelled; the remote file's `content` and `encoding` fields are inputs.
 */
module GithubApi {
  import opened Wrappers
  import Utf8
  import Base64

  /** `preparePath(info, make_prefix)`: `info` with the prefix put in front unless it already starts with it. */
  function PreparePath(info: string, prefix: string): (r: string)
    ensures prefix <= r
    ensures prefix <= info ==> r == info
    ensures |info| <= |r| <= |prefix| + |info| && r[|r| - |info|..] == info
  {
    if !(prefix <= info) then prefix + info else info
  }

  /** Preparing a prepared path changes nothing. */
  lemma PreparePathIdempotent(info: string, prefix: string)
    ensures PreparePath(PreparePath(info, prefix), prefix) == PreparePath(info, prefix)
  {
  }

  /**
   * `prepareContent(_content_base64ed, _content_not_base64, _filename)`.
   * `fileText` is what `read_file_as_str(_filename)` returns (the file's text,
   * or "" when there is no such file). The Base64 output is ASCII, so turning
   * it back into `str` with `str(..., "utf-8")` gives the same characters
   * (`Utf8.DecodeEncode`).
   */
  function PrepareContent(contentBase64ed: string, contentNotBase64: string, filename: string, fileText: string): string {
    if contentBase64ed != "" then contentBase64ed
    else if contentNotBase64 != "" then Base64.Encode(Utf8.Encode(contentNotBase64))
    else if filename != "" then Base64.Encode(Utf8.Encode(fileText))
    else ""
  }

  /**
   * The first non-empty source wins: an already encoded text verbatim; else
   * the text, UTF-8 encoded then Base64 encoded, `4 * ceil(n / 3)` characters
   * for its `n` bytes; else the file's text the same way; else "".
   */
  lemma PrepareContentPriority(contentBase64ed: string, contentNotBase64: string, filename: string, fileText: string)
    ensures var r := PrepareContent(contentBase64ed, contentNotBase64, filename, fileText);
      (contentBase64ed != "" ==> r == contentBase64ed) &&
      (contentBase64ed == "" && contentNotBase64 != "" ==>
         Base64.Decode(Utf8.Encode(r)) == Some(Utf8.Encode(contentNotBase64)) &&
         |r| == 4 * ((|Utf8.Encode(contentNotBase64)| + 2) / 3)) &&
      (contentBase64ed == "" && contentNotBase64 == "" && filename != "" ==>
         Base64.Decode(Utf8.Encode(r)) == Some(Utf8.Encode(fileText))) &&
      (contentBase64ed == "" && contentNotBase64 == "" && filename == "" ==> r == "")
  {
    Base64.DecodeEncode(Utf8.Encode(contentNotBase64));
    Base64.EncodeLength(Utf8.Encode(contentNotBase64));
    Base64.DecodeEncode(Utf8.Encode(fileText));
  }

  /** What `get_content` returns from the file's `content` and `encoding` fields, or the exception it raises. */
  datatype Content =
    | Text(text: string)
    | BadBase64   // `binascii.Error` from `b64decode`
    | BadUtf8     // `UnicodeDecodeError` from `str(..., "utf-8")`

  /** The decoding step of `get_content`: Base64 content is decoded, anything else is returned as it is. */
  function DecodeContent(content: string, encoding: string): Content {
    if encoding == "base64" then
      match Base64.Decode(Utf8.Encode(content))
      case None => BadBase64
      case Some(bytes) =>
        match Utf8.Decode(bytes)
        case None => BadUtf8
        case Some(text) => Text(text)
    else Text(content)
  }

  /** Stored with `prepareContent` and read back with `get_content`, a text comes back unchanged. */
  lemma ContentRoundTrip(contentNotBase64: string, filename: string, fileText: string)
    requires contentNotBase64 != ""
    ensures DecodeContent(PrepareContent("", contentNotBase64, filename, fileText), "base64") == Text(contentNotBase64)
  {
    Base64.DecodeEncode(Utf8.Encode(contentNotBase64));
    Utf8.DecodeEncode(contentNotBase64);
  }

  /** The same for a text read from a file. */
  lemma FileContentRoundTrip(filename: string, fileText: string)
    requires filename != ""
    ensures DecodeContent(PrepareContent("", "", filename, fileText), "base64") == Text(fileText)
  {
    Base64.DecodeEncode(Utf8.Encode(fileText));
    Utf8.DecodeEncode(fileText);
  }

  /** Content in any other encoding is returned as it is. */
  lemma OtherEncodingVerbatim(content: string, encoding: string)
    requires encoding != "base64"
    ensures DecodeContent(content, encoding) == Text(content)
  {
  }

  /** Empty content decodes to empty text, whatever the encoding field says. */
  lemma EmptyContent(encoding: string)
    ensures DecodeContent("", encoding) == Text("")
  {
    assert Utf8.Encode("") == [];
    assert Base64.Decode([]) == Some([]);
    assert Utf8.Decode([]) == Some("");
  }
}
