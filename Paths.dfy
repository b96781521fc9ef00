/**
  The working-directory layout the preflight sequence relies on
  (src/init/paths.rs), and how a relative path names its parent directories.
*/
module Paths {
  import Strings

  const DIR_CONFIGS: string := "configs"
  const DIR_MSL_CONF: string := "configs/MSL"
  const DIR_LOGS: string := "configs/logs"
  const DIR_SERVERS: string := "servers"
  const DIR_CACHE: string := "configs/logs/cache"

  const FILE_EULA: string := "configs/MSL/eula.json"
  const FILE_CONFIG: string := "configs/MSL/config.json"

  /** The proper parent directories of a relative path: its prefixes that end just before a '/'. */
  function Ancestors(p: string): set<string>
  {
    set i | 0 < i < |p| && p[i] == '/' :: p[..i]
  }

  /** What `create_dir_all(p)` brings into existence: `p` and every parent of it. */
  function DirChain(p: string): set<string>
  {
    {p} + Ancestors(p)
  }

  /** `p[..i]` is a member of `DirChain(p)`: the whole path, or a prefix ending just before a '/'. */
  predicate ComponentEnd(p: string, i: int)
  {
    i == |p| || (0 < i < |p| && p[i] == '/')
  }

  /** The members of a chain are exactly the prefixes at component ends. */
  lemma DirChainMembers(p: string, q: string)
    ensures q in DirChain(p) <==> exists i :: 0 <= i <= |p| && ComponentEnd(p, i) && q == p[..i]
  {
    if q == p {
      assert p[..|p|] == p;
    }
    if q in DirChain(p) && q != p {
      var i :| 0 < i < |p| && p[i] == '/' && q == p[..i];
      assert ComponentEnd(p, i);
    }
  }

  /** `p` lies inside directory `dir`. */
  predicate Under(p: string, dir: string)
  {
    Strings.StartsWith(p, dir + "/")
  }
}
