/** What the path functions of the artifact lookup make of URLs, relative references and registered names. */
module PathLaws {
  import opened Wrappers
  import opened Text
  import opened Resolve

  // ---- what is kept of a URL ----

  lemma {:induction false} IndexOfFirst(x: string, p: string, y: string)
    requires p != "" && p[0] !in x
    ensures Index(x + p + y, p) == |x|
  {
    var s := x + p + y;
    if x == "" {
      assert s[..|p|] == p;
    } else {
      assert s[0] == x[0] && x[0] in x && !HasPrefix(s, p) by {
        assert s[0] != p[0];
      }
      assert s[1..] == x[1..] + p + y;
      IndexOfFirst(x[1..], p, y);
    }
  }

  lemma {:induction false} NoIndexOf(s: string, p: string)
    requires p != "" && p[0] !in s
    ensures Index(s, p) == -1
  {
    if s == "" {
    } else {
      assert s[0] in s;
      NoIndexOf(s[1..], p);
    }
  }

  /** A query or fragment with its mark, or nothing. */
  predicate QueryTail(tail: string) { tail == "" || tail[0] == '?' || tail[0] == '#' }

  lemma {:induction false} BeforeTail(s: string, tail: string)
    requires '?' !in s && '#' !in s && QueryTail(tail)
    ensures BeforeQuery(s + tail) == s
  {
    if s == "" {
      assert s + tail == tail;
    } else {
      assert s[0] in s && (s + tail)[1..] == s[1..] + tail;
      BeforeTail(s[1..], tail);
      assert s == [s[0]] + s[1..];
    }
  }

  predicate Unpadded(s: string) { s != "" ==> !IsSpace(s[0]) && !IsSpace(s[|s| - 1]) }

  lemma KeptFrom(full: string, s: string, i: nat, rest: string, j: nat)
    requires BeforeQuery(TrimRight(TrimLeft(full))) == s && Index(s, "://") == i && i + 3 <= |s| && s[i + 3..] == rest
    requires Index(rest, "/") == j && j <= |rest|
    ensures NormalizePath(full) == rest[j..]
  {
  }

  lemma AfterScheme(scheme: string, rest: string)
    requires ':' !in scheme
    ensures var url := scheme + "://" + rest; Index(url, "://") == |scheme| && url[|scheme| + 3..] == rest
  {
    IndexOfFirst(scheme, "://", rest);
  }

  lemma AfterHost(host: string, path: string)
    requires '/' !in host
    ensures var rest := host + "/" + path; Index(rest, "/") == |host| && rest[|host|..] == "/" + path
  {
    IndexOfFirst(host, "/", path);
  }

  /** Of scheme://host/path with a query or fragment the path with its slash is kept. */
  lemma UrlPathIsKept(scheme: string, host: string, path: string, tail: string)
    requires ':' !in scheme && '/' !in host && QueryTail(tail)
    requires var url := scheme + "://" + (host + "/" + path); '?' !in url && '#' !in url && Unpadded(url + tail)
    ensures NormalizePath(scheme + "://" + (host + "/" + path) + tail) == "/" + path
  {
    var rest := host + "/" + path;
    var url := scheme + "://" + rest;
    assert TrimRight(TrimLeft(url + tail)) == url + tail;
    BeforeTail(url, tail);
    AfterScheme(scheme, rest);
    AfterHost(host, path);
    KeptFrom(url + tail, url, |scheme|, rest, |host|);
  }

  /** A path without a colon is kept up to its query or fragment. */
  lemma PlainPathIsKept(path: string, tail: string)
    requires ':' !in path && '?' !in path && '#' !in path && QueryTail(tail) && Unpadded(path + tail)
    ensures NormalizePath(path + tail) == path
  {
    assert TrimRight(TrimLeft(path + tail)) == path + tail;
    BeforeTail(path, tail);
    NoIndexOf(path, "://");
  }

  lemma {:induction false} TrimAppended(s: string, c: char)
    requires IsSpace(c)
    ensures TrimRight(TrimLeft(s + [c])) == TrimRight(TrimLeft(s))
  {
    if s != "" && IsSpace(s[0]) {
      assert (s + [c])[1..] == s[1..] + [c];
      TrimAppended(s[1..], c);
    } else {
      assert (s + [c])[..|s|] == s;
      assert s == "" ==> (s + [c])[1..] == "";
    }
  }

  /** White space around a path does not matter. */
  lemma PaddingIsIgnored(s: string, c: char)
    requires IsSpace(c)
    ensures NormalizePath([c] + s) == NormalizePath(s) && NormalizePath(s + [c]) == NormalizePath(s)
  {
    assert ([c] + s)[1..] == s;
    TrimAppended(s, c);
  }

  // ---- relative references ----

  function Ups(n: nat): seq<string> { if n == 0 then [] else Ups(n - 1) + [".."] }

  lemma {:induction false} UpsAreParts(n: nat)
    ensures |Ups(n)| == n && forall s :: s in Ups(n) ==> s == ".."
  {
    if n == 0 {
    } else {
      UpsAreParts(n - 1);
    }
  }

  lemma {:induction false} CleanedUps(dir: seq<string>, n: nat)
    requires AllProper(dir) && n <= |dir|
    ensures Cleaned(dir + Ups(n)) == dir[..|dir| - n]
  {
    if n == 0 {
      assert dir + [] == dir && dir[..|dir|] == dir;
      ProperStays(dir);
    } else {
      CleanedUps(dir, n - 1);
      assert (dir + Ups(n))[..|dir + Ups(n)| - 1] == dir + Ups(n - 1);
      assert (dir + Ups(n))[|dir + Ups(n)| - 1] == "..";
    }
  }

  lemma {:induction false} CleanedProper(segs: seq<string>, more: seq<string>)
    requires AllProper(more)
    ensures Cleaned(segs + more) == Cleaned(segs) + more
  {
    if more == [] {
      assert segs + more == segs;
    } else {
      var init, last := more[..|more| - 1], more[|more| - 1];
      assert last in more && more == init + [last];
      CleanedProper(segs, init);
      assert (segs + more)[..|segs + more| - 1] == segs + init;
    }
  }

  lemma {:induction false} DirOfFile(dir: string, file: string)
    requires '/' !in file
    ensures DirOf(dir + "/" + file) == dir && PathBase(dir + "/" + file) == file
  {
    var s := dir + "/" + file;
    if file == "" {
      assert s[..|s| - 1] == dir;
    } else {
      var init := file[..|file| - 1];
      assert s[..|s| - 1] == dir + "/" + init && s[|s| - 1] == file[|file| - 1];
      assert file[|file| - 1] in file;
      DirOfFile(dir, init);
      assert file == init + [file[|file| - 1]];
    }
  }

  lemma {:induction false} JoinedSplits(dir: seq<string>, tail: seq<string>)
    requires dir != [] && tail != [] && forall s :: s in dir || s in tail ==> '/' !in s
    ensures Split("/" + Join(dir, '/') + "/" + Join(tail, '/'), '/') == [""] + dir + tail
  {
    var a, b := Join(dir, '/'), Join(tail, '/');
    SplitOfJoin(dir, '/');
    SplitOfJoin(tail, '/');
    SplitAt(a, b, '/');
    SplitAt("", a + ['/'] + b, '/');
    assert "" + ['/'] + (a + ['/'] + b) == "/" + a + "/" + b;
  }

  lemma Regrouped<T>(a: seq<T>, b: seq<T>, c: seq<T>, d: seq<T>)
    ensures a + b + (c + d) == a + (b + c + d)
  {
  }

  lemma {:induction false} CleanedParts(dir: seq<string>, ups: nat, ref: seq<string>)
    requires AllProper(dir) && ups <= |dir| && AllProper(ref)
    ensures Cleaned([""] + dir + (Ups(ups) + ref)) == dir[..|dir| - ups] + ref
  {
    var up := dir + Ups(ups);
    Regrouped([""], dir, Ups(ups), ref);
    EmptyHeadVanishes(up + ref);
    CleanedProper(up, ref);
    CleanedUps(dir, ups);
  }

  lemma {:induction false} PartsHoldNoSlash(ups: nat, ref: seq<string>)
    requires AllProper(ref)
    ensures forall s :: s in Ups(ups) + ref ==> '/' !in s
  {
    UpsAreParts(ups);
    forall s | s in Ups(ups) + ref ensures '/' !in s {
      assert s in Ups(ups) || s in ref;
    }
  }

  lemma CleanFromRoot(p: string, segs: seq<string>, out: seq<string>)
    requires HasPrefix(p, "/") && Split(p, '/') == segs && Cleaned(segs) == out
    ensures CleanPath(p) == "/" + Join(out, '/')
  {
  }

  lemma {:induction false} CleansUps(dir: seq<string>, ups: nat, ref: seq<string>)
    requires dir != [] && AllProper(dir) && ups <= |dir| && ref != [] && AllProper(ref)
    ensures CleanPath("/" + Join(dir, '/') + "/" + Join(Ups(ups) + ref, '/')) ==
            "/" + Join(dir[..|dir| - ups] + ref, '/')
  {
    var tail := Ups(ups) + ref;
    var p := "/" + Join(dir, '/') + "/" + Join(tail, '/');
    PartsHoldNoSlash(ups, ref);
    JoinedSplits(dir, tail);
    CleanedParts(dir, ups, ref);
    assert p[..1] == "/";
    CleanFromRoot(p, [""] + dir + tail, dir[..|dir| - ups] + ref);
  }

  lemma JoinsFromDirectory(lib: Library, base: string, dir: string, ref: string)
    requires DirOf(base) == dir != "" && !HasPrefix(ref, "/")
             && !HasPrefix(base, "http://") && !HasPrefix(base, "https://")
    ensures JoinReference(lib, base, ref) == CleanPath(dir + "/" + ref)
  {
  }

  /**
   A reference that goes `ups` directories up from the file's own and then down along `ref` names that file: each ".."
   takes back one directory of the base, whose own last segment does not count.
   */
  lemma {:induction false} RelativeReferences(lib: Library, dir: seq<string>, file: string, ups: nat, ref: seq<string>)
    requires dir != [] && AllProper(dir) && '/' !in file && ups <= |dir| && ref != [] && AllProper(ref)
    ensures JoinReference(lib, "/" + Join(dir, '/') + "/" + file, Join(Ups(ups) + ref, '/'))
            == "/" + Join(dir[..|dir| - ups] + ref, '/')
  {
    var root := "/" + Join(dir, '/');
    UpsAreParts(ups);
    assert (Ups(ups) + ref)[0] in Ups(ups) || (Ups(ups) + ref)[0] in ref;
    StartsInFirst(Ups(ups) + ref);
    DirOfFile(root, file);
    assert (root + "/" + file)[0] == '/';
    JoinsFromDirectory(lib, root + "/" + file, root, Join(Ups(ups) + ref, '/'));
    CleansUps(dir, ups, ref);
  }

  lemma StartsInFirst(parts: seq<string>)
    requires parts != [] && parts[0] != "" && '/' !in parts[0]
    ensures !HasPrefix(Join(parts, '/'), "/")
  {
    assert Join(parts, '/')[0] == parts[0][0] && parts[0][0] in parts[0];
  }

  /** A reference from the root replaces the whole path. */
  lemma RootedReferences(lib: Library, base: string, ref: seq<string>)
    requires !HasPrefix(base, "http://") && !HasPrefix(base, "https://") && AllProper(ref)
    ensures JoinReference(lib, base, "/" + Join(ref, '/')) == "/" + Join(ref, '/')
  {
    assert ("/" + Join(ref, '/'))[..1] == "/";
    CleanOfJoined(ref);
  }

  // ---- names an artifact answers to ----

  /**
   An artifact answers to its name, to the path of its name, and to the last segment of its name; so does it for a
   path's own last segment.
   */
  lemma FoundByItsNames(a: Artifact, path: string)
    ensures var names := {a.name, NormalizePath(a.name)} + (if PathBase(a.name) == "" then {} else {PathBase(a.name)});
            FindArtifact([a], path) == (if path in names || PathBase(path) in names then Some(a) else None)
  {
    LastIs([a], Named(path), a);
    LastIs([a], Named(PathBase(path)), a);
    assert a in [a];
  }

  /**
   An upload named "~/…/app.js" serves any origin's path that ends in app.js, when nothing is registered under that
   path.
   */
  lemma TildeNamesServeAnyOrigin(cands: seq<Artifact>, a: Artifact, dir: string, file: string, path: string)
    requires '/' !in file && file != "" && a.name == "~/" + dir + "/" + file && PathBase(path) == file
    requires forall b :: b in cands ==> !RegisteredAs(b, path) && !RegisteredAs(b, file)
    requires !RegisteredAs(a, path)
    ensures FindArtifact(cands + [a], path) == Some(a)
  {
    DirOfFile("~/" + dir, file);
    LastOfAppend(cands, a, path);
    LastOfAppend(cands, a, file);
    LastIsCandidate(cands, Named(path));
  }
}
