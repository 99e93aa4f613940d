/** String and query helpers of src/lib/utils.ts: `removeTrailingSlash` and `createUrl`.
    A `URLSearchParams` object is modelled as its list of name-value pairs, and its `set`,
    `delete` and serialisation follow the URLSearchParams algorithms of the WHATWG URL
    Standard (section 6.2), without percent-encoding. */
module Utils {
  import opened Wrappers

  predicate EndsWithSlash(s: string) {
    |s| > 0 && s[|s| - 1] == '/'
  }

  /** `path.replace(/\/$/, "")`: the regex has no `g` or `m` flag, so at most one '/'
      is removed, and only at the very end of the string. */
  function RemoveTrailingSlash(path: string): (r: string)
    ensures EndsWithSlash(path) ==> r + "/" == path
    ensures !EndsWithSlash(path) ==> r == path
    ensures |r| == if EndsWithSlash(path) then |path| - 1 else |path|
  {
    if EndsWithSlash(path) then path[..|path| - 1] else path
  }

  /** A stored (already normalised) url `stored` matches a requested url exactly when the
      request is `stored` itself or `stored` followed by one '/'. */
  lemma UrlMatchModuloSlash(stored: string, url: string)
    requires !EndsWithSlash(stored)
    ensures RemoveTrailingSlash(url) == stored <==> url == stored || url == stored + "/"
  {
    if url == stored + "/" {
      assert url[..|url| - 1] == stored;
    }
    if RemoveTrailingSlash(url) == stored && EndsWithSlash(url) {
      assert url == url[..|url| - 1] + "/";
    }
  }

  /** Applying the function twice equals applying it once, except on inputs ending in "//",
      which keep one '/' after the first application. */
  lemma RemoveTrailingSlashTwice(path: string)
    ensures RemoveTrailingSlash(RemoveTrailingSlash(path)) == RemoveTrailingSlash(path)
        <==> !(|path| >= 2 && path[|path| - 2..] == "//")
  {
    if |path| >= 2 && path[|path| - 2] == '/' && path[|path| - 1] == '/' {
      assert path[|path| - 2..] == "//";
    }
    if |path| >= 2 && path[|path| - 2..] == "//" {
      assert path[|path| - 2] == path[|path| - 2..][0];
    }
  }

  /** The concrete input that shows the function is not idempotent. */
  lemma RemoveTrailingSlashNotIdempotent()
    ensures RemoveTrailingSlash("https://a.b//") == "https://a.b/"
    ensures RemoveTrailingSlash(RemoveTrailingSlash("https://a.b//")) == "https://a.b"
  {
    assert "https://a.b//"[..12] == "https://a.b/";
    assert "https://a.b/"[..11] == "https://a.b";
  }

  // ---------------------------------------------------------------------------
  // URLSearchParams

  /** One entry of a URLSearchParams list. */
  type Param = (string, string)

  /** One entry of `Object.entries(record)` for a `Record<string, string | undefined>`. */
  type Entry = (string, Option<string>)

  function Names(ps: seq<Param>): (r: seq<string>)
    ensures |r| == |ps|
    ensures forall i :: 0 <= i < |ps| ==> r[i] == ps[i].0
  {
    if ps == [] then [] else [ps[0].0] + Names(ps[1..])
  }

  predicate NamesDistinct(ps: seq<Param>) {
    forall i, j :: 0 <= i < j < |ps| ==> ps[i].0 != ps[j].0
  }

  /** `params.get(name)`: the value of the first pair with that name. */
  function Get(ps: seq<Param>, name: string): (r: Option<string>)
    ensures r.None? <==> name !in Names(ps)
  {
    if ps == [] then None
    else if ps[0].0 == name then Some(ps[0].1)
    else Get(ps[1..], name)
  }

  /** `params.delete(name)`: removes every pair with that name. */
  function DeleteParam(ps: seq<Param>, name: string): (r: seq<Param>)
    ensures name !in Names(r)
    ensures forall p :: p in r <==> p in ps && p.0 != name
  {
    if ps == [] then []
    else if ps[0].0 == name then DeleteParam(ps[1..], name)
    else [ps[0]] + DeleteParam(ps[1..], name)
  }

  /** The first pair named `name` takes the new value; later pairs with that name go. */
  function ReplaceFirst(ps: seq<Param>, name: string, value: string): seq<Param> {
    if ps == [] then []
    else if ps[0].0 == name then [(name, value)] + DeleteParam(ps[1..], name)
    else [ps[0]] + ReplaceFirst(ps[1..], name, value)
  }

  /** `params.set(name, value)`. */
  function SetParam(ps: seq<Param>, name: string, value: string): seq<Param> {
    if name in Names(ps) then ReplaceFirst(ps, name, value) else ps + [(name, value)]
  }

  /** `params.toString()`: pairs joined by '&', each written `name=value`. */
  function Serialize(ps: seq<Param>): string {
    if ps == [] then ""
    else if |ps| == 1 then ps[0].0 + "=" + ps[0].1
    else ps[0].0 + "=" + ps[0].1 + "&" + Serialize(ps[1..])
  }

  /** The first loop of `createUrl`: an old entry is copied only when its value is a string. */
  function CopyOld(entries: seq<Entry>): seq<Param> {
    if entries == [] then []
    else
      var prev := CopyOld(entries[..|entries| - 1]);
      var (k, v) := entries[|entries| - 1];
      if v.Some? then SetParam(prev, k, v.value) else prev
  }

  /** The second loop of `createUrl`: an undefined value deletes, a string value sets. */
  function ApplyNew(ps: seq<Param>, entries: seq<Entry>): seq<Param> {
    if entries == [] then ps
    else
      var prev := ApplyNew(ps, entries[..|entries| - 1]);
      var (k, v) := entries[|entries| - 1];
      if v.None? then DeleteParam(prev, k) else SetParam(prev, k, v.value)
  }

  function MergedParams(oldParams: seq<Entry>, newParams: seq<Entry>): seq<Param> {
    ApplyNew(CopyOld(oldParams), newParams)
  }

  /** The first loop of `createUrl`: copies the old entries whose value is a string. */
  method CopyOldParams(oldParams: seq<Entry>) returns (params: seq<Param>)
    ensures params == CopyOld(oldParams)
  {
    params := [];
    var i := 0;
    while i < |oldParams|
      invariant 0 <= i <= |oldParams|
      invariant params == CopyOld(oldParams[..i])
    {
      var (key, value) := oldParams[i];
      assert oldParams[..i + 1][..i] == oldParams[..i] && oldParams[..i + 1][i] == (key, value);
      if value.Some? {
        params := SetParam(params, key, value.value);
      }
      i := i + 1;
    }
    assert oldParams[..|oldParams|] == oldParams;
  }

  /** The second loop of `createUrl`: deletes the names given undefined, sets the others. */
  method ApplyNewParams(copied: seq<Param>, newParams: seq<Entry>) returns (params: seq<Param>)
    ensures params == ApplyNew(copied, newParams)
  {
    params := copied;
    var j := 0;
    while j < |newParams|
      invariant 0 <= j <= |newParams|
      invariant params == ApplyNew(copied, newParams[..j])
    {
      var (key, value) := newParams[j];
      assert newParams[..j + 1][..j] == newParams[..j] && newParams[..j + 1][j] == (key, value);
      if value.None? {
        params := DeleteParam(params, key);
      } else {
        params := SetParam(params, key, value.value);
      }
      j := j + 1;
    }
    assert newParams[..|newParams|] == newParams;
  }

  /** `createUrl(href, oldParams, newParams)`: the entries of both records are given in
      `Object.entries` order. The result always has a '?', even when no parameter is left. */
  method CreateUrl(href: string, oldParams: seq<Entry>, newParams: seq<Entry>) returns (url: string)
    ensures url == href + "?" + Serialize(MergedParams(oldParams, newParams))
  {
    var copied := CopyOldParams(oldParams);
    var params := ApplyNewParams(copied, newParams);
    url := href + "?" + Serialize(params);
  }

  // ---------------------------------------------------------------------------
  // What `get` sees after `set` and `delete`

  lemma {:induction false} GetDelete(ps: seq<Param>, name: string, other: string)
    ensures Get(DeleteParam(ps, name), other) == if other == name then None else Get(ps, other)
  {
    if ps != [] && other != name {
      GetDelete(ps[1..], name, other);
    }
  }

  lemma {:induction false} GetReplaceFirst(ps: seq<Param>, name: string, value: string, other: string)
    requires name in Names(ps)
    ensures Get(ReplaceFirst(ps, name, value), other) == if other == name then Some(value) else Get(ps, other)
  {
    if ps[0].0 == name {
      GetDelete(ps[1..], name, other);
    } else {
      assert Names(ps) == [ps[0].0] + Names(ps[1..]);
      GetReplaceFirst(ps[1..], name, value, other);
    }
  }

  lemma {:induction false} GetAppend(ps: seq<Param>, name: string, value: string, other: string)
    requires name !in Names(ps)
    ensures Get(ps + [(name, value)], other) == if other == name then Some(value) else Get(ps, other)
  {
    if ps == [] {
    } else {
      assert Names(ps) == [ps[0].0] + Names(ps[1..]);
      assert (ps + [(name, value)])[1..] == ps[1..] + [(name, value)];
      GetAppend(ps[1..], name, value, other);
    }
  }

  /** After `set(name, value)`, `get(name)` is `value` and every other name is unaffected. */
  lemma GetSet(ps: seq<Param>, name: string, value: string, other: string)
    ensures Get(SetParam(ps, name, value), other) == if other == name then Some(value) else Get(ps, other)
  {
    if name in Names(ps) {
      GetReplaceFirst(ps, name, value, other);
    } else {
      GetAppend(ps, name, value, other);
    }
  }

  /** The value the last string-valued old entry gives `name`. */
  function LastOldValue(entries: seq<Entry>, name: string): Option<string> {
    if entries == [] then None
    else if entries[|entries| - 1].0 == name && entries[|entries| - 1].1.Some? then entries[|entries| - 1].1
    else LastOldValue(entries[..|entries| - 1], name)
  }

  /** The last new entry for `name`, if there is one (its value may be undefined). */
  function LastNewEntry(entries: seq<Entry>, name: string): Option<Option<string>> {
    if entries == [] then None
    else if entries[|entries| - 1].0 == name then Some(entries[|entries| - 1].1)
    else LastNewEntry(entries[..|entries| - 1], name)
  }

  lemma {:induction false} GetCopyOld(entries: seq<Entry>, name: string)
    ensures Get(CopyOld(entries), name) == LastOldValue(entries, name)
  {
    if entries != [] {
      var prev := entries[..|entries| - 1];
      GetCopyOld(prev, name);
      var (k, v) := entries[|entries| - 1];
      if v.Some? {
        GetSet(CopyOld(prev), k, v.value, name);
      }
    }
  }

  lemma {:induction false} GetApplyNew(ps: seq<Param>, entries: seq<Entry>, name: string)
    ensures Get(ApplyNew(ps, entries), name) ==
      match LastNewEntry(entries, name)
      case None => Get(ps, name)
      case Some(v) => v
  {
    if entries != [] {
      var prev := entries[..|entries| - 1];
      GetApplyNew(ps, prev, name);
      var (k, v) := entries[|entries| - 1];
      if v.None? {
        GetDelete(ApplyNew(ps, prev), k, name);
      } else {
        GetSet(ApplyNew(ps, prev), k, v.value, name);
      }
    }
  }

  /** The value `createUrl` gives each name: the last new entry decides (undefined removes
      the name, a string overrides); names with no new entry keep their old string value. */
  lemma MergedValue(oldParams: seq<Entry>, newParams: seq<Entry>, name: string)
    ensures Get(MergedParams(oldParams, newParams), name) ==
      match LastNewEntry(newParams, name)
      case None => LastOldValue(oldParams, name)
      case Some(v) => v
  {
    GetApplyNew(CopyOld(oldParams), newParams, name);
    GetCopyOld(oldParams, name);
  }

  // ---------------------------------------------------------------------------
  // Where `set` and `delete` leave the names

  lemma {:induction false} DeleteAbsent(ps: seq<Param>, name: string)
    requires name !in Names(ps)
    ensures DeleteParam(ps, name) == ps
  {
    if ps != [] {
      assert Names(ps) == [ps[0].0] + Names(ps[1..]);
      DeleteAbsent(ps[1..], name);
    }
  }

  lemma {:induction false} ReplaceFirstNames(ps: seq<Param>, name: string, value: string)
    requires NamesDistinct(ps) && name in Names(ps)
    ensures Names(ReplaceFirst(ps, name, value)) == Names(ps)
  {
    assert Names(ps) == [ps[0].0] + Names(ps[1..]);
    if ps[0].0 == name {
      DeleteAbsent(ps[1..], name);
    } else {
      ReplaceFirstNames(ps[1..], name, value);
    }
  }

  /** `set` on a list with distinct names keeps an existing name in place and appends a
      new name at the end. */
  lemma SetParamNames(ps: seq<Param>, name: string, value: string)
    requires NamesDistinct(ps)
    ensures Names(SetParam(ps, name, value)) == if name in Names(ps) then Names(ps) else Names(ps) + [name]
  {
    if name in Names(ps) {
      ReplaceFirstNames(ps, name, value);
    } else {
      assert Names(ps + [(name, value)]) == Names(ps) + [name];
    }
  }
}
