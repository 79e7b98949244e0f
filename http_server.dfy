/** The name and path handling of the two file handlers in
    main/http_server.c: `file_delete_handler`, routed the URIs under
    `/delete/`, and the part of `file_get_handler`, routed the remaining URIs
    other than `/` and `/favicon.ico`, that builds the path to open and the Content-Disposition header.

    Request URIs are C strings, modelled as character sequences without a
    NUL; fixed buffers are arrays of `char` with explicit NUL terminators. */
module HttpServer {
  import opened Common
  import opened Storage

  const MountPoint: string := "/sdcard"
  const DeletePrefix: string := "/delete/"
  /** `MAX_FILENAME_LEN`: the name buffers hold 127 characters and a NUL. */
  const MaxFilenameLen: nat := 128
  /** `FILE_PATH_MAX` with the ESP-IDF defaults `ESP_VFS_PATH_MAX` = 15 and
      `CONFIG_HTTPD_MAX_URI_LEN` = 512. */
  const DefaultFilePathMax: nat := 15 + 512

  /** A C string: no NUL inside. */
  predicate IsCString(s: string)
  {
    forall i :: 0 <= i < |s| ==> s[i] != '\0'
  }

  /** The part of `s` before the first `c`, or all of `s` when there is
      none. */
  function UpTo(s: seq<char>, c: char): (r: seq<char>)
    ensures r <= s && c !in r
    ensures |r| < |s| ==> s[|r|] == c
  {
    if s == [] || s[0] == c then [] else [s[0]] + UpTo(s[1..], c)
  }

  /** The string a NUL-terminated buffer holds. */
  function CStr(buf: seq<char>): (s: string)
    ensures IsCString(s)
  {
    UpTo(buf, '\0')
  }

  /** The first `i` characters avoid `c` and the next one is `c` (or there is
      none): then `UpTo` stops at `i`. */
  lemma {:induction false} UpToAt(s: seq<char>, c: char, i: nat)
    requires i <= |s| && (forall k :: 0 <= k < i ==> s[k] != c) && (i == |s| || s[i] == c)
    ensures UpTo(s, c) == s[..i]
  {
    if i > 0 {
      UpToAt(s[1..], c, i - 1);
      assert s[..i] == [s[0]] + s[1..][..i - 1];
    }
  }

  /** `strncpy(dst, src, n)` into a buffer of `n + 1` characters followed by
      `dst[n] = '\0'`: at most `n` characters are copied and the rest is NUL. */
  method StrNCopy(src: string, n: nat) returns (dst: array<char>)
    requires IsCString(src)
    ensures fresh(dst) && dst.Length == n + 1
    ensures forall i :: 0 <= i < dst.Length ==> dst[i] == if i < n && i < |src| then src[i] else '\0'
  {
    dst := new char[n + 1];
    var i := 0;
    while i < n && i < |src|
      invariant 0 <= i <= n && i <= |src|
      invariant forall k :: 0 <= k < i ==> dst[k] == src[k]
    {
      dst[i] := src[i];
      i := i + 1;
    }
    while i < n
      invariant 0 <= i <= n
      invariant forall k :: 0 <= k < i ==> dst[k] == if k < |src| then src[k] else '\0'
    {
      dst[i] := '\0';
      i := i + 1;
    }
    dst[n] := '\0';
  }

  /** The string left in a `StrNCopy` buffer is the first `n` characters of
      the source. */
  lemma CopiedString(src: string, n: nat, buf: seq<char>)
    requires IsCString(src) && |buf| == n + 1
    requires forall i :: 0 <= i < |buf| ==> buf[i] == if i < n && i < |src| then src[i] else '\0'
    ensures CStr(buf) == Take(src, n)
  {
    var m := if |src| < n then |src| else n;
    UpToAt(buf, '\0', m);
    assert buf[..m] == Take(src, n);
  }

  /** `p = strchr(buf, c); if (p != NULL) *p = '\0';` */
  method TruncateAt(buf: array<char>, c: char)
    requires c != '\0'
    modifies buf
    ensures CStr(buf[..]) == UpTo(CStr(old(buf[..])), c)
  {
    ghost var s := buf[..];
    var i := 0;
    while i < buf.Length && buf[i] != '\0' && buf[i] != c
      invariant 0 <= i <= buf.Length && buf[..] == s
      invariant forall k :: 0 <= k < i ==> s[k] != '\0' && s[k] != c
    {
      i := i + 1;
    }
    if i == buf.Length || buf[i] == '\0' {
      UpToAt(s, '\0', i);
      UpToAt(s[..i], c, i);
      assert s[..i][..i] == s[..i];
    } else {
      buf[i] := '\0';
      UpToAt(buf[..], '\0', i);
      var t := CStr(s);
      assert i < |t|;
      UpToAt(t, c, i);
      assert buf[..][..i] == s[..i] == t[..i];
    }
  }

  /** `strstr(s, "..") != NULL`. */
  predicate HasDotDot(s: string)
  {
    exists i :: 0 <= i < |s| - 1 && s[i] == '.' && s[i + 1] == '.'
  }

  /** A mount-point prefix ending in `/` cannot form `..` with a name that
      has none. */
  lemma NoDotDotJoin(a: string, b: string)
    requires a != [] && a[|a| - 1] != '.' && !HasDotDot(a) && !HasDotDot(b)
    ensures !HasDotDot(a + b)
  {
    forall i | 0 <= i < |a + b| - 1 && (a + b)[i] == '.'
      ensures (a + b)[i + 1] != '.'
    {
      if i + 1 < |a| {
        assert a[i] == '.';
      } else if i + 1 > |a| {
        assert b[i - |a|] == '.' && (a + b)[i + 1] == b[i + 1 - |a|];
      }
    }
  }

  // -------------------------------------------------------------- delete

  /** What the client receives. */
  datatype Reply =
    | SeeOther(location: string)
    | Download(contentDisposition: string, body: string)
    | HttpError(code: int)

  /** The name a delete request names: after the `/delete/` prefix, at most
      127 characters, cut at the first `?`. */
  function CleanName(uri: string): (name: string)
    requires |uri| >= |DeletePrefix| && uri[..|DeletePrefix|] == DeletePrefix
  {
    UpTo(Take(uri[|DeletePrefix|..], MaxFilenameLen - 1), '?')
  }

  /** The kept name is a prefix of what follows `/delete/`, holds no `?` and
      fits the 128-byte buffer; when neither the length limit nor a `?`
      intervenes it is the whole rest of the URI. */
  lemma CleanNameShape(uri: string)
    requires |uri| >= |DeletePrefix| && uri[..|DeletePrefix|] == DeletePrefix
    ensures CleanName(uri) <= uri[|DeletePrefix|..]
    ensures '?' !in CleanName(uri) && |CleanName(uri)| <= MaxFilenameLen - 1
    ensures |uri| - |DeletePrefix| <= MaxFilenameLen - 1 && '?' !in uri[|DeletePrefix|..]
      ==> CleanName(uri) == uri[|DeletePrefix|..]
  {
    var rest := uri[|DeletePrefix|..];
    var kept := Take(rest, MaxFilenameLen - 1);
    assert CleanName(uri) <= kept <= rest;
    if |rest| <= MaxFilenameLen - 1 && '?' !in rest {
      UpToAt(kept, '?', |kept|);
    }
  }

  /** The handler's decision for a cleaned name. */
  datatype DeleteDecision = BadRequest | TooLong | RemovePath(path: string)

  function DecideDelete(name: string, filePathMax: nat): (d: DeleteDecision)
  {
    if name == [] || HasDotDot(name) then BadRequest
    else if |MountPoint| + 1 + |name| + 1 > filePathMax then TooLong
    else RemovePath(MountPoint + "/" + name)
  }

  /** A path the handler removes lies under `/sdcard/`, is the name the
      client sent, and has no `..`, so it cannot leave the mount point. */
  lemma RemovedPathStaysUnder(name: string, filePathMax: nat)
    requires DecideDelete(name, filePathMax).RemovePath?
    ensures var p := DecideDelete(name, filePathMax).path;
      p == "/sdcard/" + name && name != [] && !HasDotDot(p) && |p| < filePathMax
  {
    var a := MountPoint + "/";
    assert !HasDotDot(a) by {
      forall i | 0 <= i < |a| - 1
        ensures !(a[i] == '.' && a[i + 1] == '.')
      {
      }
    }
    NoDotDotJoin(a, name);
  }

  /** With the default configuration a cleaned name never makes the path too
      long: the 414 answer cannot happen. */
  lemma DefaultConfigNeverTooLong(uri: string)
    requires |uri| >= |DeletePrefix| && uri[..|DeletePrefix|] == DeletePrefix
    ensures DecideDelete(CleanName(uri), DefaultFilePathMax) != TooLong
  {
    CleanNameShape(uri);
  }

  /** The reply, return code and volume after a delete request, given the
      volume before. */
  function DeleteOutcome(files: map<string, string>, uri: string, filePathMax: nat): (Reply, EspErr, map<string, string>)
    requires |uri| >= |DeletePrefix| && uri[..|DeletePrefix|] == DeletePrefix
  {
    match DecideDelete(CleanName(uri), filePathMax)
    case BadRequest => (HttpError(400), EspFail, files)
    case TooLong => (HttpError(414), EspFail, files)
    case RemovePath(p) =>
      if p in files then (SeeOther("/"), EspOk, files - {p}) else (HttpError(404), EspOk, files)
  }

  /** Only the file the name denotes can disappear, and only when the handler
      reports it; a rejected request leaves the volume alone. */
  lemma DeleteRemovesAtMostNamed(files: map<string, string>, uri: string, filePathMax: nat)
    requires |uri| >= |DeletePrefix| && uri[..|DeletePrefix|] == DeletePrefix
    ensures var (reply, err, files') := DeleteOutcome(files, uri, filePathMax);
      && files'.Keys <= files.Keys
      && (reply.HttpError? && reply.code in {400, 414} <==> err == EspFail)
      && (reply == SeeOther("/") <==> files' != files)
      && (files' != files ==> files' == files - {"/sdcard/" + CleanName(uri)})
  {
    var d := DecideDelete(CleanName(uri), filePathMax);
    if d.RemovePath? {
      RemovedPathStaysUnder(CleanName(uri), filePathMax);
      var p := d.path;
      if p in files {
        assert p !in files - {p};
      }
    }
  }

  /** `file_delete_handler` on a `/delete/...` request. */
  method FileDeleteHandler(vol: Volume, uri: string, filePathMax: nat) returns (reply: Reply, err: EspErr)
    requires |uri| >= |DeletePrefix| && uri[..|DeletePrefix|] == DeletePrefix && IsCString(uri)
    modifies vol
    ensures (reply, err, vol.files) == DeleteOutcome(old(vol.files), uri, filePathMax)
  {
    var filename := uri[|DeletePrefix|..];
    var filenameClean := StrNCopy(filename, MaxFilenameLen - 1);
    CopiedString(filename, MaxFilenameLen - 1, filenameClean[..]);
    TruncateAt(filenameClean, '?');
    var name := CStr(filenameClean[..]);
    assert name == CleanName(uri);
    if name == [] || HasDotDot(name) {
      return HttpError(400), EspFail;
    }
    if |MountPoint| + 1 + |name| + 1 > filePathMax {
      return HttpError(414), EspFail;
    }
    var filepath := MountPoint + "/" + name;
    var removed := vol.Remove(filepath);
    if removed {
      reply := SeeOther("/");
    } else {
      assert vol.files == old(vol.files);
      reply := HttpError(404);
    }
    err := EspOk;
  }

  // ------------------------------------------------------------ download

  /** `strrchr(uri, '/')`: the part after the last `/`, or the whole URI
      when there is none. */
  function Basename(uri: string): (name: string)
    ensures '/' !in name
    ensures |name| <= |uri| && uri[|uri| - |name|..] == name
    ensures |name| < |uri| ==> uri[|uri| - |name| - 1] == '/'
  {
    if uri == [] || uri[|uri| - 1] == '/' then []
    else Basename(uri[..|uri| - 1]) + [uri[|uri| - 1]]
  }

  /** `snprintf(filepath, FILE_PATH_MAX, "/sdcard%s", uri)`. */
  function DownloadPath(uri: string, filePathMax: nat): string
    requires filePathMax >= 1
  {
    Take(MountPoint + uri, filePathMax - 1)
  }

  /** The Content-Disposition value printed into 256 bytes. */
  function Disposition(uri: string): string
  {
    Take("attachment; filename=\"" + Take(Basename(uri), MaxFilenameLen - 1) + "\"", 255)
  }

  /** The header is never cut: it names the basename, itself cut to 127
      characters, between quotes. */
  lemma DispositionWhole(uri: string)
    ensures Disposition(uri) == "attachment; filename=\"" + Take(Basename(uri), MaxFilenameLen - 1) + "\""
    ensures '/' !in Take(Basename(uri), MaxFilenameLen - 1)
  {
    var n := Take(Basename(uri), MaxFilenameLen - 1);
    assert n <= Basename(uri);
    assert |"attachment; filename=\"" + n + "\""| <= 255;
  }

  /** The path opened for download is the mount point followed by the URI as
      received: no `..` is filtered out. */
  lemma DownloadPathUnfiltered(uri: string)
    requires |uri| <= 512
    ensures DownloadPath(uri, DefaultFilePathMax) == "/sdcard" + uri
    ensures HasDotDot(uri) ==> HasDotDot(DownloadPath(uri, DefaultFilePathMax))
  {
    var p := DownloadPath(uri, DefaultFilePathMax);
    if HasDotDot(uri) {
      var i :| 0 <= i < |uri| - 1 && uri[i] == '.' && uri[i + 1] == '.';
      assert p[i + 7] == '.' && p[i + 8] == '.';
    }
  }

  /** The reply of `file_get_handler` up to the start of the body: 404 when
      the path does not open, 500 when the chunk buffer cannot be allocated,
      else the file with its Content-Disposition. */
  function GetOutcome(files: map<string, string>, uri: string, filePathMax: nat, allocOk: bool): (Reply, EspErr)
    requires filePathMax >= 1
  {
    var path := DownloadPath(uri, filePathMax);
    if path !in files then (HttpError(404), EspFail)
    else if !allocOk then (HttpError(500), EspFail)
    else (Download(Disposition(uri), files[path]), EspOk)
  }

  /** A download succeeds exactly when the path opens and the buffer is
      allocated, and then names the file after the URI's last segment. */
  lemma GetOutcomeCases(files: map<string, string>, uri: string, filePathMax: nat, allocOk: bool)
    requires filePathMax >= 1
    ensures var (reply, err) := GetOutcome(files, uri, filePathMax, allocOk);
      && (err == EspOk <==> DownloadPath(uri, filePathMax) in files && allocOk)
      && (err == EspOk ==>
            && reply.Download? && reply.body == files[DownloadPath(uri, filePathMax)]
            && reply.contentDisposition == "attachment; filename=\"" + Take(Basename(uri), MaxFilenameLen - 1) + "\"")
  {
    DispositionWhole(uri);
  }

  /** `file_get_handler` up to the transfer of the body, which is sent whole
      here. */
  method FileGetHandler(vol: Volume, uri: string, filePathMax: nat, allocOk: bool) returns (reply: Reply, err: EspErr)
    requires filePathMax >= 1 && IsCString(uri)
    ensures (reply, err) == GetOutcome(vol.files, uri, filePathMax, allocOk)
  {
    var filepath := Take(MountPoint + uri, filePathMax - 1);
    if filepath !in vol.files {
      return HttpError(404), EspFail;
    }
    var filename := Basename(uri);
    var filenameBuf := StrNCopy(filename, MaxFilenameLen - 1);
    CopiedString(filename, MaxFilenameLen - 1, filenameBuf[..]);
    var disposition := Take("attachment; filename=\"" + CStr(filenameBuf[..]) + "\"", 255);
    if !allocOk {
      return HttpError(500), EspFail;
    }
    reply := Download(disposition, vol.files[filepath]);
    err := EspOk;
  }
}
