/** The LoRA download cache: picks an API token by matching the download
    URL against a small table of host patterns, streams the model file to
    disk, and skips the download when the target path already exists. */
module LoraManager {
  import opened Wrappers
  import opened Bytes
  import Paths
  import FileSystem

  // ---------------------------------------------------------------------
  // `re.search` for the patterns of the token table

  /** One pattern character against one input character: `.` is the regular
      expression wildcard (any character but a newline), every other
      character of these patterns stands for itself. */
  predicate CharMatches(pc: char, c: char)
  {
    if pc == '.' then c != '\n' else pc == c
  }

  predicate MatchesAt(pattern: string, s: string, i: int)
  {
    0 <= i && i + |pattern| <= |s|
    && forall k :: 0 <= k < |pattern| ==> CharMatches(pattern[k], s[i + k])
  }

  function SearchFrom(pattern: string, s: string, i: nat): (r: bool)
    ensures r <==> exists j :: i <= j && MatchesAt(pattern, s, j)
    decreases |s| + 1 - i
  {
    if i + |pattern| > |s| then false
    else MatchesAt(pattern, s, i) || SearchFrom(pattern, s, i + 1)
  }

  /** `re.search(pattern, s)` is truthy: the pattern matches somewhere in `s`. */
  function Search(pattern: string, s: string): (r: bool)
    ensures r <==> exists j :: MatchesAt(pattern, s, j)
  {
    SearchFrom(pattern, s, 0)
  }

  // ---------------------------------------------------------------------
  // Token selection

  /** An entry of `remote_api_tokens`. */
  datatype TokenEntry = TokenEntry(urlRegex: string, token: string)

  /** `os.environ.get(name, "")`. */
  function EnvOr(env: map<string, string>, name: string, default: string): string
  {
    if name in env then env[name] else default
  }

  /** The table built by the constructor, Hugging Face first. */
  function TokenTable(env: map<string, string>): (r: seq<TokenEntry>)
    ensures |r| == 2
  {
    [TokenEntry("huggingface.co", EnvOr(env, "HF_TOKEN", "")),
     TokenEntry("civitai.com", EnvOr(env, "CIVITAI_API_TOKEN", ""))]
  }

  /** An entry supplies the token for a URL when its pattern is found in the
      URL and its token is not empty. */
  predicate Qualifies(e: TokenEntry, url: string)
  {
    Search(e.urlRegex, url) && e.token != ""
  }

  /** The first entry that supplies a token, if any. */
  function FirstQualifying(entries: seq<TokenEntry>, url: string): (r: Option<nat>)
    ensures r.Some? ==> r.value < |entries| && Qualifies(entries[r.value], url)
                        && forall j :: 0 <= j < r.value ==> !Qualifies(entries[j], url)
    ensures r.None? ==> forall j :: 0 <= j < |entries| ==> !Qualifies(entries[j], url)
    decreases |entries|
  {
    if |entries| == 0 then None
    else if Qualifies(entries[0], url) then Some(0)
    else match FirstQualifying(entries[1..], url)
      case None => None
      case Some(k) => Some(k + 1)
  }

  const Authorization: string := "Authorization"

  /** The headers of the client: one bearer token from the first entry that
      supplies one, or none. */
  function AuthHeaders(entries: seq<TokenEntry>, url: string): (h: map<string, string>)
    ensures h.Keys <= {Authorization}
    ensures Authorization in h <==> exists j :: 0 <= j < |entries| && Qualifies(entries[j], url)
  {
    match FirstQualifying(entries, url)
    case None => map[]
    case Some(i) => map[Authorization := "Bearer " + entries[i].token]
  }

  /** With the constructor's table: the Hugging Face token wins when its
      pattern is found and it is set; otherwise the Civitai token is used
      under the same condition; otherwise no header is sent. */
  lemma TokenChoice(env: map<string, string>, url: string)
    ensures var h := AuthHeaders(TokenTable(env), url);
            var hf := EnvOr(env, "HF_TOKEN", "");
            var civitai := EnvOr(env, "CIVITAI_API_TOKEN", "");
            var useHf := Search("huggingface.co", url) && hf != "";
            var useCivitai := Search("civitai.com", url) && civitai != "";
            (useHf ==> h == map[Authorization := "Bearer " + hf])
            && (!useHf && useCivitai ==> h == map[Authorization := "Bearer " + civitai])
            && (!useHf && !useCivitai ==> h == map[])
  {
    var t := TokenTable(env);
    assert t[1..][1..] == [];
    assert FirstQualifying(t[1..][1..], url) == None;
    if !Qualifies(t[0], url) && Qualifies(t[1], url) {
      assert FirstQualifying(t[1..], url) == Some(0);
      assert FirstQualifying(t, url) == Some(1);
    }
  }

  /** The patterns are not escaped, so the dot of a host name matches any
      character: a host that merely resembles `huggingface.co` is sent the
      Hugging Face token. */
  lemma DotMatchesAnyCharacter(env: map<string, string>)
    requires EnvOr(env, "HF_TOKEN", "") != ""
    ensures AuthHeaders(TokenTable(env), "https://huggingface-co.example/lora.safetensors")
            == map[Authorization := "Bearer " + EnvOr(env, "HF_TOKEN", "")]
  {
    var url := "https://huggingface-co.example/lora.safetensors";
    assert MatchesAt("huggingface.co", url, 8);
    TokenChoice(env, url);
  }

  // ---------------------------------------------------------------------
  // The download

  /** What the server finally answers to a GET, after redirects: no answer at
      all, or a status and the body chunks received; `truncated` means the
      stream broke after those chunks. */
  datatype Response =
    | ConnectionFailed
    | Answered(status: int, chunks: seq<seq<byte>>, truncated: bool)

  /** The remote side, as a function of the URL and the request headers. */
  type Server = (string, map<string, string>) -> Response

  datatype Request = Request(url: string, headers: map<string, string>)

  datatype InstallError =
    | ConnectError            // the request itself failed
    | HttpStatusError(status: int)  // raise_for_status on a non-2xx status
    | IsADirectory            // the target path is a directory
    | StreamError             // the body stream broke part-way

  /** `raise_for_status` lets only 2xx statuses through. */
  predicate IsSuccess(status: int) { 200 <= status < 300 }

  /** The bytes written, chunk after chunk. */
  function Concat(chunks: seq<seq<byte>>): seq<byte>
  {
    if |chunks| == 0 then [] else Concat(chunks[..|chunks| - 1]) + chunks[|chunks| - 1]
  }

  /** The outcome of `install_model` for a server answer, and whether the
      target path is a directory. */
  function InstallOutcome(resp: Response, targetIsDir: bool): (r: Result<(), InstallError>)
    ensures r.Ok? <==> resp.Answered? && IsSuccess(resp.status) && !targetIsDir && !resp.truncated
  {
    if resp.ConnectionFailed? then Err(ConnectError)
    else if !IsSuccess(resp.status) then Err(HttpStatusError(resp.status))
    else if targetIsDir then Err(IsADirectory)
    else if resp.truncated then Err(StreamError)
    else Ok(())
  }

  /** The files after `install_model`: the target is (re)written with the
      received chunks once the status passed and the target could be opened;
      otherwise nothing changes. */
  function InstallFiles(files: map<string, seq<byte>>, targetIsDir: bool, path: string, resp: Response)
    : (r: map<string, seq<byte>>)
    ensures resp.Answered? && IsSuccess(resp.status) && !targetIsDir ==>
              path in r && r[path] == Concat(resp.chunks)
    ensures forall p :: p != path ==> (p in r <==> p in files) && (p in r ==> r[p] == files[p])
    ensures !(resp.Answered? && IsSuccess(resp.status) && !targetIsDir) ==> r == files
  {
    if resp.Answered? && IsSuccess(resp.status) && !targetIsDir then files[path := Concat(resp.chunks)]
    else files
  }

  /** `install_model_if_needed` on values: nothing happens when the target
      path exists; otherwise the download takes place. */
  function IfNeededFiles(files: map<string, seq<byte>>, dirs: set<string>, path: string, resp: Response)
    : map<string, seq<byte>>
  {
    if path in files || path in dirs then files
    else InstallFiles(files, false, path, resp)
  }

  /** Once a download has got past the status check, the path exists, and a
      second attempt changes nothing whatever the server would answer. */
  lemma IfNeededIdempotent(files: map<string, seq<byte>>, dirs: set<string>, path: string,
                           first: Response, second: Response)
    requires first.Answered? && IsSuccess(first.status)
    ensures var once := IfNeededFiles(files, dirs, path, first);
            IfNeededFiles(once, dirs, path, second) == once
  {
  }

  /** A download that broke part-way leaves a partial file behind, and every
      later attempt takes that file for the installed model. */
  lemma PartialFileIsKept(files: map<string, seq<byte>>, dirs: set<string>, path: string,
                          first: Response, later: Response)
    requires path !in files && path !in dirs
    requires first.Answered? && IsSuccess(first.status) && first.truncated
    ensures InstallOutcome(first, false).Err?
    ensures var once := IfNeededFiles(files, dirs, path, first);
            path in once && once[path] == Concat(first.chunks)
            && IfNeededFiles(once, dirs, path, later) == once
  {
  }

  class LoraManager {
    const remoteApiTokens: seq<TokenEntry>
    /** The GET requests sent so far, in order. */
    var requests: seq<Request>

    constructor (env: map<string, string>)
      ensures remoteApiTokens == TokenTable(env) && requests == []
    {
      remoteApiTokens := TokenTable(env);
      requests := [];
    }

    /** `get_http_client`: the headers of the client for a URL. */
    method GetHttpHeaders(url: string) returns (headers: map<string, string>)
      ensures headers == AuthHeaders(remoteApiTokens, url)
    {
      headers := map[];
      var i := 0;
      while i < |remoteApiTokens|
        invariant 0 <= i <= |remoteApiTokens|
        invariant forall j :: 0 <= j < i ==> !Qualifies(remoteApiTokens[j], url)
      {
        var tokenData := remoteApiTokens[i];
        if Search(tokenData.urlRegex, url) {
          var token := tokenData.token;
          if token != "" {
            headers := headers[Authorization := "Bearer " + token];
            break;
          }
        }
        i := i + 1;
      }
    }

    /** `install_model`: GET the URL with the chosen token; a non-2xx status
        raises before the file is opened; otherwise the file is truncated and
        every chunk received is appended to it. */
    method InstallModel(disk: FileSystem.Disk, server: Server, sourceUrl: string, filePath: string)
      returns (r: Result<(), InstallError>)
      requires disk.Valid()
      modifies this, disk
      ensures disk.Valid() && disk.dirs == old(disk.dirs)
      ensures requests == old(requests) + [Request(sourceUrl, AuthHeaders(remoteApiTokens, sourceUrl))]
      ensures r == InstallOutcome(server(sourceUrl, AuthHeaders(remoteApiTokens, sourceUrl)), filePath in disk.dirs)
      ensures disk.files == InstallFiles(old(disk.files), filePath in disk.dirs, filePath,
                                         server(sourceUrl, AuthHeaders(remoteApiTokens, sourceUrl)))
    {
      var headers := GetHttpHeaders(sourceUrl);
      requests := requests + [Request(sourceUrl, headers)];
      var response := server(sourceUrl, headers);
      if response.ConnectionFailed? {
        return Err(ConnectError);
      }
      if !IsSuccess(response.status) {
        return Err(HttpStatusError(response.status));
      }
      if filePath in disk.dirs {
        return Err(IsADirectory);
      }
      disk.files := disk.files[filePath := []];
      var i := 0;
      while i < |response.chunks|
        invariant 0 <= i <= |response.chunks|
        invariant disk.files == old(disk.files)[filePath := Concat(response.chunks[..i])]
        invariant disk.dirs == old(disk.dirs)
        invariant requests == old(requests) + [Request(sourceUrl, headers)]
      {
        disk.files := disk.files[filePath := disk.files[filePath] + response.chunks[i]];
        assert response.chunks[..i + 1][..i] == response.chunks[..i];
        i := i + 1;
      }
      assert response.chunks[..i] == response.chunks;
      if response.truncated {
        return Err(StreamError);
      }
      return Ok(());
    }

    /** `install_model_if_needed`: the model goes to `lora_dir` joined with
        its name, and is downloaded only when nothing exists at that path. */
    method InstallModelIfNeeded(disk: FileSystem.Disk, server: Server, loraDir: string, name: string, source: string)
      returns (r: Result<(), InstallError>)
      requires disk.Valid()
      modifies this, disk
      ensures disk.Valid() && disk.dirs == old(disk.dirs)
      ensures var path := Paths.Join(loraDir, name);
              old(disk.Exists(path)) ==> r.Ok? && disk.files == old(disk.files) && requests == old(requests)
      ensures var path := Paths.Join(loraDir, name);
              var headers := AuthHeaders(remoteApiTokens, source);
              var resp := server(source, headers);
              !old(disk.Exists(path)) ==>
                requests == old(requests) + [Request(source, headers)]
                && r == InstallOutcome(resp, false)
      ensures var path := Paths.Join(loraDir, name);
              disk.files == IfNeededFiles(old(disk.files), old(disk.dirs), path,
                                          server(source, AuthHeaders(remoteApiTokens, source)))
      ensures r.Ok? ==> disk.Exists(Paths.Join(loraDir, name))
      ensures old(disk.files.Keys) <= disk.files.Keys
    {
      var filePath := Paths.Join(loraDir, name);
      if disk.Exists(filePath) {
        return Ok(());
      }
      r := InstallModel(disk, server, source, filePath);
    }
  }
}
