/**
 * Start-up: the gallery is built from the entries of one directory whose
 * names end in an image extension, each joined onto the directory path; when
 * there is none, the program reports it and exits before showing a window.
 */
module Startup {
  import opened Paths

  /** File name endings accepted as images, compared in lower case. */
  const AllowedExtensions: seq<string> := [".png", ".jpg", ".jpeg", ".bmp", ".gif"]

  function LowerChar(c: char): char
  {
    if 'A' <= c <= 'Z' then (c as int - 'A' as int + 'a' as int) as char else c
  }

  /** `s` in lower case (ASCII letters only). */
  function Lower(s: string): (r: string)
    ensures |r| == |s|
    ensures forall i :: 0 <= i < |s| ==> !('A' <= r[i] <= 'Z')
    ensures forall i :: 0 <= i < |s| && 'A' <= s[i] <= 'Z' ==> r[i] as int == s[i] as int + 32
    ensures forall i :: 0 <= i < |s| && !('A' <= s[i] <= 'Z') ==> r[i] == s[i]
  {
    seq(|s|, i requires 0 <= i < |s| => LowerChar(s[i]))
  }

  predicate EndsWith(s: string, suffix: string)
  {
    |suffix| <= |s| && s[|s| - |suffix|..] == suffix
  }

  /** Python's `s.endswith(t)` for a tuple `t` of suffixes: true iff `s` ends in one of them. */
  function EndsWithAny(s: string, suffixes: seq<string>): (b: bool)
    ensures b <==> exists ext :: ext in suffixes && EndsWith(s, ext)
  {
    if suffixes == [] then false
    else
      assert forall ext :: ext in suffixes <==> ext == suffixes[0] || ext in suffixes[1..];
      EndsWith(s, suffixes[0]) || EndsWithAny(s, suffixes[1..])
  }

  /** A directory entry is an image when its lower-cased name ends in an allowed extension. */
  function IsImageName(name: string): (kept: bool)
    ensures kept <==> exists ext :: ext in AllowedExtensions && EndsWith(Lower(name), ext)
  {
    EndsWithAny(Lower(name), AllowedExtensions)
  }

  /** The text after the last '/' of `p` (all of `p` when it has none). */
  function Basename(p: string): (b: string)
    ensures '/' !in b
  {
    if p == [] || p[|p| - 1] == '/' then [] else Basename(p[..|p| - 1]) + [p[|p| - 1]]
  }

  /** A name without '/' placed after a directory part ending in '/' (or after nothing) is the basename. */
  lemma {:induction false} BasenameAfterSeparator(prefix: string, name: string)
    requires prefix == [] || prefix[|prefix| - 1] == '/'
    ensures '/' !in name ==> Basename(prefix + name) == name
  {
    if name != [] && '/' !in name {
      var init := name[..|name| - 1];
      assert (prefix + name)[..|prefix + name| - 1] == prefix + init;
      assert (prefix + name)[|prefix + name| - 1] == name[|name| - 1];
      assert '/' !in init by {
        forall i | 0 <= i < |init| ensures init[i] != '/' {
          assert init[i] == name[i];
        }
      }
      BasenameAfterSeparator(prefix, init);
      assert init + [name[|name| - 1]] == name;
    } else if name == [] {
      assert prefix + name == prefix;
    }
  }

  /**
   * Two-argument os.path.join on POSIX. A name without '/' is the basename of
   * the joined path, and what precedes it is the directory followed by at
   * most one added '/', so that the name always starts a new path component.
   */
  function Join(dir: string, name: string): (path: string)
    ensures '/' !in name ==> Basename(path) == name && EndsWith(path, name)
    ensures '/' !in name ==>
              var head := path[..|path| - |name|];
              (head == dir || head == dir + "/") &&
              (head == dir <==> dir == [] || dir[|dir| - 1] == '/') &&
              (head == [] || head[|head| - 1] == '/')
  {
    if |name| > 0 && name[0] == '/' then name
    else if dir == [] || dir[|dir| - 1] == '/' then
      var path := dir + name;
      BasenameAfterSeparator(dir, name);
      assert path[..|path| - |name|] == dir;
      assert path[|path| - |name|..] == name;
      path
    else
      var path := dir + "/" + name;
      BasenameAfterSeparator(dir + "/", name);
      assert path[..|path| - |name|] == dir + "/";
      assert path[|path| - |name|..] == name;
      path
  }

  /** The gallery's image paths: the image entries of `names`, in listing order, joined onto `dir`. */
  function ImageFiles(dir: string, names: seq<string>): (paths: seq<Path>)
    ensures |paths| <= |names|
  {
    if names == [] then []
    else (if IsImageName(names[0]) then [Join(dir, names[0])] else []) + ImageFiles(dir, names[1..])
  }

  /** A path is in the gallery exactly when it is the join of an image entry of the listing. */
  lemma {:induction false} ImageFilesMembership(dir: string, names: seq<string>, p: Path)
    ensures p in ImageFiles(dir, names) <==>
            exists name :: name in names && IsImageName(name) && Join(dir, name) == p
  {
    if names != [] {
      ImageFilesMembership(dir, names[1..], p);
      assert forall name :: name in names <==> name == names[0] || name in names[1..];
    }
  }

  /** Filtering commutes with concatenation of listings, so listing order is kept. */
  lemma {:induction false} ImageFilesAppend(dir: string, a: seq<string>, b: seq<string>)
    ensures ImageFiles(dir, a + b) == ImageFiles(dir, a) + ImageFiles(dir, b)
  {
    if a != [] {
      assert (a + b)[0] == a[0];
      assert (a + b)[1..] == a[1..] + b;
      ImageFilesAppend(dir, a[1..], b);
    } else {
      assert a + b == b;
    }
  }

  lemma DistinctTail(names: seq<string>)
    requires names != [] && Distinct(names)
    ensures Distinct(names[1..])
    ensures names[0] !in names[1..]
  {
  }

  /** Distinct directory entries (which never contain '/') give distinct image paths. */
  lemma {:induction false} ImageFilesDistinct(dir: string, names: seq<string>)
    requires Distinct(names)
    requires forall i :: 0 <= i < |names| ==> '/' !in names[i]
    ensures Distinct(ImageFiles(dir, names))
  {
    if names != [] {
      var rest := names[1..];
      DistinctTail(names);
      assert forall i :: 0 <= i < |rest| ==> '/' !in rest[i] by {
        forall i | 0 <= i < |rest| ensures '/' !in rest[i] {
          assert rest[i] == names[i + 1];
        }
      }
      ImageFilesDistinct(dir, rest);
      var tail := ImageFiles(dir, rest);
      if IsImageName(names[0]) {
        var p := Join(dir, names[0]);
        assert p !in tail by {
          ImageFilesMembership(dir, rest, p);
          forall name | name in rest && IsImageName(name) ensures Join(dir, name) != p {
            var k :| 0 <= k < |rest| && rest[k] == name;
            assert '/' !in name && name != names[0];
          }
        }
        PrependDistinct(p, tail);
      }
    }
  }

  lemma PrependDistinct(p: Path, tail: seq<Path>)
    requires Distinct(tail) && p !in tail
    ensures Distinct([p] + tail)
  {
  }

  /** The gallery is empty exactly when no entry of the listing is an image. */
  lemma {:induction false} ImageFilesEmpty(dir: string, names: seq<string>)
    ensures ImageFiles(dir, names) == [] <==> forall name :: name in names ==> !IsImageName(name)
  {
    if names != [] {
      ImageFilesEmpty(dir, names[1..]);
      assert forall name :: name in names <==> name == names[0] || name in names[1..];
    }
  }

  datatype Outcome =
    | Gallery(paths: seq<Path>)  // open the gallery on these images
    | NoImageFiles               // report that nothing was found and exit

  /** What start-up does with the listing `names` of directory `dir`. */
  function Start(dir: string, names: seq<string>): (o: Outcome)
    ensures o.NoImageFiles? <==> forall name :: name in names ==> !IsImageName(name)
    ensures o.Gallery? ==> |o.paths| >= 1 && o.paths == ImageFiles(dir, names)
  {
    var paths := ImageFiles(dir, names);
    ImageFilesEmpty(dir, names);
    if paths == [] then
      NoImageFiles
    else
      Gallery(paths)
  }

  /** `a` and `b` are the same text up to the case of ASCII letters. */
  ghost predicate EqualIgnoringCase(a: string, b: string)
  {
    |a| == |b| && forall i :: 0 <= i < |a| ==> LowerChar(a[i]) == LowerChar(b[i])
  }

  ghost predicate NoUpper(s: string)
  {
    forall i :: 0 <= i < |s| ==> !('A' <= s[i] <= 'Z')
  }

  lemma AllowedExtensionsLowerCase()
    ensures forall ext :: ext in AllowedExtensions ==> NoUpper(ext)
  {
    assert AllowedExtensions == [".png", ".jpg", ".jpeg", ".bmp", ".gif"];
  }

  /** For a lower-case suffix, the lower-cased name ends in it iff the name ends in it up to case. */
  lemma EndsWithLowerIgnoringCase(name: string, ext: string)
    requires NoUpper(ext)
    ensures EndsWith(Lower(name), ext) <==>
            |ext| <= |name| && EqualIgnoringCase(name[|name| - |ext|..], ext)
  {
    if |ext| <= |name| {
      var k := |name| - |ext|;
      var tail, ltail := name[k..], Lower(name)[k..];
      forall i | 0 <= i < |ext| ensures ltail[i] == LowerChar(tail[i]) && LowerChar(ext[i]) == ext[i] {
        assert ltail[i] == Lower(name)[k + i];
      }
      if EqualIgnoringCase(tail, ext) {
        assert ltail == ext;
      }
    }
  }

  /**
   * The start-up filter ignores case: a name is kept exactly when its last
   * characters spell one of the allowed extensions, whatever the case of
   * its letters.
   */
  lemma ImageNameIgnoresCase(name: string)
    ensures IsImageName(name) <==>
            exists ext :: ext in AllowedExtensions && |ext| <= |name| &&
                          EqualIgnoringCase(name[|name| - |ext|..], ext)
  {
    AllowedExtensionsLowerCase();
    forall ext | ext in AllowedExtensions
      ensures EndsWith(Lower(name), ext) <==>
              |ext| <= |name| && EqualIgnoringCase(name[|name| - |ext|..], ext)
    {
      EndsWithLowerIgnoringCase(name, ext);
    }
  }

  /** Lower-casing a name first does not change whether it is kept. */
  lemma ImageNameOfLower(name: string)
    ensures IsImageName(name) <==> IsImageName(Lower(name))
  {
    assert Lower(Lower(name)) == Lower(name);
  }

  /** Only the final extension matters. */
  lemma InnerExtensionRejected()
    ensures !IsImageName("archive.png.zip")
  {
    var l := "archive.png.zip";
    assert Lower(l) == l;
    assert l[|l| - 4..] == ".zip";
    assert l[|l| - 5..] == "g.zip";
    assert AllowedExtensions[1..] == [".jpg", ".jpeg", ".bmp", ".gif"];
    assert AllowedExtensions[2..] == [".jpeg", ".bmp", ".gif"];
    assert AllowedExtensions[3..] == [".bmp", ".gif"];
    assert AllowedExtensions[4..] == [".gif"];
    assert !EndsWith(l, ".png") && !EndsWith(l, ".jpg") && !EndsWith(l, ".jpeg");
    assert !EndsWith(l, ".bmp") && !EndsWith(l, ".gif");
  }
}
