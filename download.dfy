/** `DownloadContent` (resource.go:39-95) as a function of what its file
    operations produced. The temporary file, the copy of the body, the
    reopening and 261-byte read, the `filetype` sniffing and `os.Rename`
    are not modelled; their outcome is an input. What is modelled is which
    error ends up where, and the path arithmetic that renames the file to
    the extension of the sniffed type. */
module Download {
  import opened Wrappers
  import opened Urls

  /** The sniffed type (`types.Type`): a MIME type and an extension without
      its dot. `filetype.Match` reports an unrecognised file as a type of its
      own (extension "unknown") with no error, so such a file is renamed
      like any other. */
  datatype FileType = FileType(mime: string, extension: string)

  /** The zero `types.Type` that the error paths leave in the record. */
  const NoType := FileType("", "")

  /** How far the download got. `tempPath` is the name the temporary file
      was given. `TempFileFailed` is the outcome of lines 48-55 of
      resource.go taken on their own: the source asks the nil file for its
      name (line 46) before it looks at the error, which panics. */
  datatype DownloadIo =
    | TempFileFailed(err: string)
    | CopyFailed(tempPath: string, err: string)
    | ReopenFailed(tempPath: string, err: string)
    | Sniffed(tempPath: string, fileType: FileType, sniffError: Option<string>)

  /** `DownloadedContent`. */
  datatype DownloadedContent = DownloadedContent(
    url: Url,
    destPath: string,
    downloadError: Option<string>,
    fileTypeError: Option<string>,
    fileType: FileType)

  /** `path.Ext`: the suffix from the last dot of the final path element,
      or the empty string when that element has no dot. */
  function Ext(p: string): (r: string)
    ensures |r| <= |p| && r == p[|p| - |r|..]
    ensures r != [] ==> r[0] == '.' && '.' !in r[1..] && '/' !in r
    ensures r == [] ==> forall i :: 0 <= i < |p| && '/' !in p[i..] ==> p[i] != '.'
  {
    if p == [] then ""
    else if p[|p| - 1] == '/' then
      assert forall i :: 0 <= i < |p| ==> p[|p| - 1] == p[i..][|p| - 1 - i];
      ""
    else if p[|p| - 1] == '.' then "."
    else
      var init, last := p[..|p| - 1], p[|p| - 1];
      var e := Ext(init);
      assert forall i :: 0 <= i < |init| ==> init[i..] == p[i..][..|p| - 1 - i];
      if e == "" then ""
      else
        assert (e + [last])[1..] == e[1..] + [last];
        e + [last]
  }

  /** The path without its extension. */
  function Stem(p: string): string
  {
    p[..|p| - |Ext(p)|]
  }

  /** The new name of the downloaded file (resource.go:86-88): the current
      extension replaced by a dot and the sniffed type's extension. */
  function RenameExtension(p: string, extension: string): string
  {
    Stem(p) + "." + extension
  }

  /** An extension with no dot and no slash in it. */
  predicate PlainExtension(extension: string)
  {
    '.' !in extension && '/' !in extension
  }

  /** Appending a character that is neither a dot nor a slash extends a
      non-empty extension by it and leaves an empty one empty. */
  lemma ExtSnoc(p: string, c: char)
    requires c != '.' && c != '/'
    ensures Ext(p + [c]) == if Ext(p) == "" then "" else Ext(p) + [c]
  {
    assert (p + [c])[..|p|] == p;
  }

  /** A dot followed by text with no dot and no slash is the extension of
      anything it ends. */
  lemma {:induction false} ExtOfDotted(stem: string, e: string)
    requires PlainExtension(e)
    ensures Ext(stem + "." + e) == "." + e
  {
    if e == [] {
      assert stem + "." + e == stem + ['.'];
    } else {
      var init, last := e[..|e| - 1], e[|e| - 1];
      assert last in e;
      assert forall c :: c in init ==> c in e;
      ExtOfDotted(stem, init);
      ExtSnoc(stem + "." + init, last);
      DottedSnoc(stem, e);
    }
  }

  lemma DottedSnoc(stem: string, e: string)
    requires e != []
    ensures stem + "." + e == (stem + "." + e[..|e| - 1]) + [e[|e| - 1]]
    ensures "." + e == ("." + e[..|e| - 1]) + [e[|e| - 1]]
  {
    assert e == e[..|e| - 1] + [e[|e| - 1]];
  }

  /** After the rename the path has the sniffed type's extension and keeps
      everything before the old one. */
  lemma RenameSetsExtension(p: string, extension: string)
    requires PlainExtension(extension)
    ensures Ext(RenameExtension(p, extension)) == "." + extension
    ensures Stem(RenameExtension(p, extension)) == Stem(p)
  {
    var q := RenameExtension(p, extension);
    ExtOfDotted(Stem(p), extension);
    assert |q| - |Ext(q)| == |Stem(p)|;
    assert q[..|Stem(p)|] == Stem(p);
  }

  /** Renaming twice to the same extension is renaming once. */
  lemma RenameIdempotent(p: string, extension: string)
    requires PlainExtension(extension)
    ensures RenameExtension(RenameExtension(p, extension), extension) == RenameExtension(p, extension)
  {
    RenameSetsExtension(p, extension);
  }

  /** `DownloadContent`: the first failing step leaves its error in
      `downloadError` (filling the file, or creating it as lines 48-55 would
      record it) or `fileTypeError` (reopening or sniffing it); the path is the temporary file's from the
      moment it exists, and only a successful sniff renames it. The error of
      `os.Rename` is not looked at, so the new name is recorded whether or
      not the rename happened. */
  function DownloadContent(u: Url, io: DownloadIo): (r: DownloadedContent)
    ensures r.url == u
    ensures r.downloadError.Some? <==> io.TempFileFailed? || io.CopyFailed?
    ensures r.fileTypeError.Some? <==> io.ReopenFailed? || (io.Sniffed? && io.sniffError.Some?)
    ensures io.TempFileFailed? ==> r.destPath == ""
    ensures !io.TempFileFailed? && !(io.Sniffed? && io.sniffError.None?) ==> r.destPath == io.tempPath
    ensures io.Sniffed? ==> r.fileType == io.fileType
    ensures io.Sniffed? && io.sniffError.None? && PlainExtension(io.fileType.extension)
      ==> Stem(r.destPath) == Stem(io.tempPath) && Ext(r.destPath) == "." + io.fileType.extension
  {
    match io
    case TempFileFailed(err) => DownloadedContent(u, "", Some(err), None, NoType)
    case CopyFailed(tempPath, err) => DownloadedContent(u, tempPath, Some(err), None, NoType)
    case ReopenFailed(tempPath, err) => DownloadedContent(u, tempPath, None, Some(err), NoType)
    case Sniffed(tempPath, fileType, sniffError) =>
      if sniffError.None? then
        var newPath := RenameExtension(tempPath, fileType.extension);
        assert PlainExtension(fileType.extension) ==> Stem(newPath) == Stem(tempPath) && Ext(newPath) == "." + fileType.extension by {
          if PlainExtension(fileType.extension) {
            RenameSetsExtension(tempPath, fileType.extension);
          }
        }
        DownloadedContent(u, newPath, None, None, fileType)
      else DownloadedContent(u, tempPath, None, sniffError, fileType)
  }
}
