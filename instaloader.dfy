/** Downloading one reel with the external `instaloader` tool
    (`downloadWithInstaloader` and `existsNonEmpty`, index.js:42-108): the
    argument list the tool is run with, and the search for the `.mp4` it
    wrote. The tool itself, `mkdir`, `stat` and `readdir` are outside the
    model: what they did reaches it as a `DownloadWorld`. */
module Instaloader {
  import opened Results
  import opened JsString
  import opened Failures

  /** The Instagram credentials the process environment may hold; None is an unset variable. */
  datatype Env = Env(sessionId: Option<string>, user: Option<string>, pass: Option<string>)

  /** The one form of authentication the tool is given. */
  datatype Credential = SessionId(token: string) | Login(user: string, password: string) | Anonymous

  /** Priority order of index.js:71-76: a session id, else user and password
      when both are set, else nothing. */
  function SelectCredential(env: Env): Credential {
    if Truthy(env.sessionId) then SessionId(env.sessionId.value)
    else if Truthy(env.user) && Truthy(env.pass) then Login(env.user.value, env.pass.value)
    else Anonymous
  }

  function CredentialFlags(c: Credential): seq<string> {
    match c
    case SessionId(t) => ["--sessionid", t]
    case Login(u, p) => ["--login", u, "--password", p]
    case Anonymous => []
  }

  /** How the tool reads the authentication flags back; None when they are
      not one of the three forms. */
  function ReadCredential(flags: seq<string>): Option<Credential> {
    if flags == [] then Some(Anonymous)
    else if |flags| == 2 && flags[0] == "--sessionid" then Some(SessionId(flags[1]))
    else if |flags| == 4 && flags[0] == "--login" && flags[2] == "--password" then Some(Login(flags[1], flags[3]))
    else None
  }

  /** The flags written for a credential read back as that credential and
      nothing else: the list carries exactly one form of authentication. */
  lemma CredentialFlagsRoundTrip(c: Credential)
    ensures ReadCredential(CredentialFlags(c)) == Some(c)
  {
    match c
    case SessionId(t) =>
    case Login(u, p) =>
    case Anonymous =>
  }

  /** The flags every run starts with. */
  function FixedFlags(tmpDir: string, id: string): seq<string> {
    ["--no-captions", "--no-compress-json", "--no-metadata-json",
     "--dirname-pattern", tmpDir, "--filename-pattern", id]
  }

  /** The argument list of index.js:63-79. */
  method BuildArgs(env: Env, tmpDir: string, id: string, url: string) returns (args: seq<string>)
    ensures |args| >= 9 && args[..7] == FixedFlags(tmpDir, id)
    ensures args[|args| - 2..] == ["--", url]
    ensures Truthy(env.sessionId) ==> args[7..|args| - 2] == ["--sessionid", env.sessionId.value]
    ensures !Truthy(env.sessionId) && Truthy(env.user) && Truthy(env.pass)
            ==> args[7..|args| - 2] == ["--login", env.user.value, "--password", env.pass.value]
    ensures !Truthy(env.sessionId) && !(Truthy(env.user) && Truthy(env.pass)) ==> |args| == 9
    ensures ReadCredential(args[7..|args| - 2]) == Some(SelectCredential(env))
  {
    var argsBase := FixedFlags(tmpDir, id);
    if Truthy(env.sessionId) {
      argsBase := argsBase + ["--sessionid", env.sessionId.value];
    } else if Truthy(env.user) && Truthy(env.pass) {
      argsBase := argsBase + ["--login", env.user.value, "--password", env.pass.value];
    }
    args := argsBase + ["--", url];
    assert args[7..|args| - 2] == argsBase[7..];
    CredentialFlagsRoundTrip(SelectCredential(env));
  }

  /** What `fs.stat` reports of a directory entry (`mtimeMs` in whole milliseconds). */
  datatype Stat = Stat(isFile: bool, size: int, mtimeMs: int)

  /** One name `readdir` lists, with what `stat` gives for it; None when `stat` throws. */
  datatype DirEntry = DirEntry(name: string, stat: Option<Stat>)

  /** `stat` of the file `name` in the directory: the first entry of that
      name; None when there is none, as when `stat` throws. */
  function StatOf(dir: seq<DirEntry>, name: string): Option<Stat>
  {
    if dir == [] then None
    else if dir[0].name == name then dir[0].stat
    else StatOf(dir[1..], name)
  }

  /** `stat` reports the first entry of the name, and fails when there is none. */
  lemma {:induction false} StatOfFirst(dir: seq<DirEntry>, name: string)
    ensures (forall i :: 0 <= i < |dir| ==> dir[i].name != name) ==> StatOf(dir, name) == None
    ensures forall i :: (0 <= i < |dir| && dir[i].name == name
                         && (forall j :: 0 <= j < i ==> dir[j].name != name)) ==> StatOf(dir, name) == dir[i].stat
  {
    if dir != [] && dir[0].name != name {
      StatOfFirst(dir[1..], name);
      forall i | 0 <= i < |dir| && dir[i].name == name && (forall j :: 0 <= j < i ==> dir[j].name != name)
        ensures StatOf(dir, name) == dir[i].stat
      {
        assert i > 0 && dir[1..][i - 1] == dir[i];
        forall j | 0 <= j < i - 1 ensures dir[1..][j].name != name {
          assert dir[1..][j] == dir[j + 1];
        }
      }
      forall i | 0 <= i < |dir| - 1 ensures dir[1..][i] == dir[i + 1] { }
    }
  }

  /** `existsNonEmpty` (index.js:42-47): a regular file of size > 0; false
      when `stat` fails. */
  predicate ExistsNonEmpty(dir: seq<DirEntry>, name: string) {
    var st := StatOf(dir, name);
    st.Some? && st.value.isFile && st.value.size > 0
  }

  /** An entry the fallback scan considers: a name ending in `.mp4` whose
      `stat` succeeds and says regular file. Its size does not matter. */
  predicate IsCandidate(e: DirEntry) {
    EndsWith(e.name, ".mp4") && e.stat.Some? && e.stat.value.isFile
  }

  /** Entry `k` is the one the scan keeps: a candidate with the greatest
      `mtimeMs`, and the first in listing order among those. */
  ghost predicate NewestAt(dir: seq<DirEntry>, k: nat) {
    && k < |dir| && IsCandidate(dir[k])
    && (forall i :: 0 <= i < |dir| && IsCandidate(dir[i]) ==> dir[i].stat.value.mtimeMs <= dir[k].stat.value.mtimeMs)
    && (forall i :: 0 <= i < k && IsCandidate(dir[i]) ==> dir[i].stat.value.mtimeMs < dir[k].stat.value.mtimeMs)
  }

  /** At most one entry is the newest one, so the scan's choice is determined. */
  lemma NewestUnique(dir: seq<DirEntry>, k1: nat, k2: nat)
    requires NewestAt(dir, k1) && NewestAt(dir, k2)
    ensures k1 == k2
  {
  }

  /** The fallback scan of index.js:95-104, returning the index of the entry kept. */
  method NewestMp4(entries: seq<DirEntry>) returns (newest: Option<nat>)
    ensures newest.None? <==> forall i :: 0 <= i < |entries| ==> !IsCandidate(entries[i])
    ensures newest.Some? ==> NewestAt(entries, newest.value)
  {
    newest := None;
    for i := 0 to |entries|
      invariant newest.None? <==> forall j :: 0 <= j < i ==> !IsCandidate(entries[j])
      invariant newest.Some? ==> NewestAt(entries[..i], newest.value)
    {
      var e := entries[i];
      if !EndsWith(e.name, ".mp4") {
        continue;
      }
      match e.stat {
        case None =>
        case Some(st) =>
          if st.isFile {
            if newest.None? || st.mtimeMs > entries[newest.value].stat.value.mtimeMs {
              newest := Some(i);
            }
          }
      }
    }
    assert entries[..|entries|] == entries;
  }

  /** What the outside world did during one download: whether `mkdir` of the
      temporary directory threw, whether the tool exited with an error, the
      directory afterwards (in `readdir` order), and whether `readdir` threw. */
  datatype DownloadWorld = DownloadWorld(
    mkdirError: Option<string>,
    execError: Option<string>,
    dir: seq<DirEntry>,
    readdirError: Option<string>)

  /** What `downloadWithInstaloader(url, tmpDir, id)` (index.js:57-108) does
      in world `w`: the arguments the tool was run with (None when it was not
      run), and the name, inside `tmpDir`, of the file it returns, or the
      error it throws. */
  ghost predicate DownloadSpec(url: string, tmpDir: string, id: string, env: Env, w: DownloadWorld,
                               invoked: Option<seq<string>>, r: Result<string, Failure>)
  {
    && (w.mkdirError.Some? ==> invoked == None && r == Err(FileSystem(w.mkdirError.value)))
    && (w.mkdirError.None? ==> invoked == Some(FixedFlags(tmpDir, id) + CredentialFlags(SelectCredential(env)) + ["--", url]))
    && (w.mkdirError.None? && w.execError.Some? ==> r == Err(InstaloaderFailed(w.execError.value)))
    && (w.mkdirError.None? && w.execError.None? ==>
          // the requested `${id}.mp4` wins without a scan
          && (ExistsNonEmpty(w.dir, id + ".mp4") ==> r == Ok(id + ".mp4"))
          // otherwise the newest regular .mp4, if the directory can be listed
          && (!ExistsNonEmpty(w.dir, id + ".mp4") && w.readdirError.Some? ==> r == Err(FileSystem(w.readdirError.value)))
          && (!ExistsNonEmpty(w.dir, id + ".mp4") && w.readdirError.None? ==>
                && (r.Ok? ==> exists k: nat :: NewestAt(w.dir, k) && w.dir[k].name == r.value)
                && (r.Err? <==> forall i :: 0 <= i < |w.dir| ==> !IsCandidate(w.dir[i]))
                && (r.Err? ==> r.error == NoMp4Produced)))
  }

  /** The download's behaviour is fully determined by its world: two runs
      meeting `DownloadSpec` agree on the arguments and on the outcome. */
  lemma DownloadDetermined(url: string, tmpDir: string, id: string, env: Env, w: DownloadWorld,
                           invoked1: Option<seq<string>>, r1: Result<string, Failure>,
                           invoked2: Option<seq<string>>, r2: Result<string, Failure>)
    requires DownloadSpec(url, tmpDir, id, env, w, invoked1, r1)
    requires DownloadSpec(url, tmpDir, id, env, w, invoked2, r2)
    ensures invoked1 == invoked2 && r1 == r2
  {
    if w.mkdirError.None? && w.execError.None? && !ExistsNonEmpty(w.dir, id + ".mp4")
       && w.readdirError.None? && r1.Ok? && r2.Ok? {
      var k1: nat :| NewestAt(w.dir, k1) && w.dir[k1].name == r1.value;
      var k2: nat :| NewestAt(w.dir, k2) && w.dir[k2].name == r2.value;
      NewestUnique(w.dir, k1, k2);
    }
  }

  /** `downloadWithInstaloader(url, tmpDir, id)` run in world `w`. */
  method Download(url: string, tmpDir: string, id: string, env: Env, w: DownloadWorld)
    returns (invoked: Option<seq<string>>, r: Result<string, Failure>)
    ensures DownloadSpec(url, tmpDir, id, env, w, invoked, r)
    ensures r.Ok? ==> EndsWith(r.value, ".mp4")
  {
    if w.mkdirError.Some? {
      return None, Err(FileSystem(w.mkdirError.value));
    }
    var args := BuildArgs(env, tmpDir, id, url);
    assert args == args[..7] + args[7..|args| - 2] + args[|args| - 2..];
    CredentialFlagsRoundTrip(SelectCredential(env));
    invoked := Some(args);
    if w.execError.Some? {
      return invoked, Err(InstaloaderFailed(w.execError.value));
    }
    var expected := id + ".mp4";
    if ExistsNonEmpty(w.dir, expected) {
      assert expected[|expected| - 4..] == ".mp4";
      return invoked, Ok(expected);
    }
    if w.readdirError.Some? {
      return invoked, Err(FileSystem(w.readdirError.value));
    }
    var newest := NewestMp4(w.dir);
    if newest.Some? {
      r := Ok(w.dir[newest.value].name);
    } else {
      r := Err(NoMp4Produced);
    }
  }
}
