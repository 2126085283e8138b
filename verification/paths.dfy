/** The script's path and URL normalisation, and the two-argument
    `os.path.join` it uses to build remote and local file paths. */
module Paths {
  import opened Text

  /** `os.path.join(base, name)` on POSIX: an absolute `name` replaces
      `base`; otherwise `name` is appended, with a `/` in between unless
      `base` is empty or already ends with one. */
  function Join(base: string, name: string): string
  {
    if StartsWith(name, "/") then name
    else if base == [] || EndsWith(base, "/") then base + name
    else base + "/" + name
  }

  /** The joined path ends with `name`; unless `name` is absolute it starts
      with `base`; and either it is `name` itself or a `/` stands right
      before `name`. */
  lemma JoinShape(base: string, name: string)
    ensures EndsWith(Join(base, name), name)
    ensures !StartsWith(name, "/") ==> StartsWith(Join(base, name), base)
    ensures Join(base, name) == name || (|name| < |Join(base, name)| && Join(base, name)[|Join(base, name)| - |name| - 1] == '/')
  {
    if !StartsWith(name, "/") {
      if base == [] || EndsWith(base, "/") {
        AppendStartsWith(base, name);
        AppendEndsWith(base, name);
      } else {
        AppendStartsWith(base, "/" + name);
        AppendEndsWith(base, "/" + name);
        AppendEndsWith("/", name);
        assert base + "/" + name == base + ("/" + name);
      }
    } else {
      assert name[|name| - |name|..] == name;
    }
  }

  /** The normalisation of the config and destination paths: a `/` is
      appended only when the path does not already end with one. */
  function WithTrailingSlash(path: string): (r: string)
    ensures EndsWith(r, "/")
    ensures StartsWith(r, path) && |r| <= |path| + 1
    ensures EndsWith(path, "/") ==> r == path
  {
    var r := path + (if !EndsWith(path, "/") then "/" else "");
    AppendStartsWith(path, if !EndsWith(path, "/") then "/" else "");
    AppendEndsWith(path, "/");
    r
  }

  /** The REST endpoint: `api` after a URL that ends with `/`, `/api` after
      one that does not. */
  function ApiUrl(url: string): (r: string)
    ensures EndsWith(r, "/api")
    ensures StartsWith(r, url) && |r| <= |url| + 4
  {
    var tail := if EndsWith(url, "/") then "api" else "/api";
    AppendStartsWith(url, tail);
    if EndsWith(url, "/") then
      assert (url + "api")[|url| + 3 - 4..] == url[|url| - 1..] + "api";
      url + tail
    else
      AppendEndsWith(url, tail);
      url + tail
  }

  /** The backups folder under the (normalised) config path. */
  function BackupsPath(sourcePath: string): string
  {
    Join(sourcePath, "backups/")
  }

  /** Normalising twice is normalising once. */
  lemma WithTrailingSlashIdempotent(path: string)
    ensures WithTrailingSlash(WithTrailingSlash(path)) == WithTrailingSlash(path)
  {
  }

  /** The endpoint is the normalised URL followed by `api`: exactly one
      slash separates the URL from `api`, whichever form the URL had. */
  lemma ApiUrlIsNormalisedUrlPlusApi(url: string)
    ensures ApiUrl(url) == WithTrailingSlash(url) + "api"
  {
  }

  /** The backups folder of a normalised config path is that path followed
      by `backups/`, so it too ends with a slash. */
  lemma BackupsPathOfNormalised(path: string)
    ensures BackupsPath(WithTrailingSlash(path)) == WithTrailingSlash(path) + "backups/"
    ensures EndsWith(BackupsPath(WithTrailingSlash(path)), "/backups/")
  {
    var p := WithTrailingSlash(path);
    assert !StartsWith("backups/", "/") by { assert "backups/"[0] != "/"[0]; }
    var q := p[..|p| - 1];
    assert p == q + "/";
    assert p + "backups/" == q + "/backups/";
    AppendEndsWith(q, "/backups/");
  }

  /** Whether a joined path ends with a suffix that contains no `/` depends
      only on the file name: joining never moves such a suffix across the
      separator. */
  lemma {:induction false} JoinedSuffixIsNameSuffix(base: string, name: string, suffix: string)
    requires '/' !in suffix
    ensures EndsWith(Join(base, name), suffix) <==> EndsWith(name, suffix)
  {
    JoinShape(base, name);
    var r := Join(base, name);
    if r != name {
      if |suffix| <= |name| {
        assert r[|r| - |suffix|..] == r[|r| - |name|..][|name| - |suffix|..];
      }
    }
  }
}
