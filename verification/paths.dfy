/** The two `os.path` operations the resolver uses, with POSIX semantics
    (`/` is the only separator, `.` the extension separator). */
module Paths {
  import opened Text

  /** `os.path.basename(p)`: the text after the last `/`. */
  function Basename(p: string): string
  {
    p[LastIndexOf(p, '/') + 1..]
  }

  /** The base name is the longest suffix of the path without a `/`. */
  lemma BasenameIsLastComponent(p: string)
    ensures '/' !in Basename(p)
    ensures |Basename(p)| <= |p| && p[|p| - |Basename(p)|..] == Basename(p)
    ensures |Basename(p)| < |p| ==> p[|p| - |Basename(p)| - 1] == '/'
  {
  }

  /** Below a directory prefix ending in `/`, the base name is the final component. */
  lemma BasenameBelowDir(dir: string, name: string)
    requires dir == [] || dir[|dir| - 1] == '/'
    requires '/' !in name
    ensures Basename(dir + name) == name
  {
    var p := dir + name;
    BasenameIsLastComponent(p);
    assert p[|p| - |name|..] == name;
  }

  /** Every `.` of the file name `b` sits in its run of leading dots
      (`b` is `""`, `"name"`, `".hidden"`, `".."`, ...). */
  predicate AllDotsLeading(b: string)
  {
    forall i, j :: 0 <= i < j < |b| && b[j] == '.' ==> b[i] == '.'
  }

  /** The extension half of `os.path.splitext(p)`: from the last `.` of the
      path, provided that dot lies in the final component and some character
      between the component's start and that dot is not a `.`; otherwise empty. */
  function Extension(p: string): string
  {
    var sepIndex := LastIndexOf(p, '/');
    var dotIndex := LastIndexOf(p, '.');
    if dotIndex > sepIndex && exists k :: sepIndex < k < dotIndex && p[k] != '.' then
      p[dotIndex..]
    else
      []
  }

  /** The extension is decided by the file name alone: it is empty exactly when
      every dot of the name is a leading dot, and otherwise it is the name's
      suffix from its last dot, preceded by at least one character that is not a dot. */
  lemma ExtensionOfBasename(p: string)
    ensures Extension(p) == [] <==> AllDotsLeading(Basename(p))
    ensures Extension(p) != [] ==>
      var b, ext := Basename(p), Extension(p);
      && |ext| < |b|
      && b[|b| - |ext|..] == ext
      && ext[0] == '.'
      && '.' !in ext[1..]
      && exists k :: 0 <= k < |b| - |ext| && b[k] != '.'
  {
    var sepIndex := LastIndexOf(p, '/');
    var dotIndex := LastIndexOf(p, '.');
    var o := sepIndex + 1;
    var b := Basename(p);
    assert b == p[o..];
    if dotIndex > sepIndex && exists k :: sepIndex < k < dotIndex && p[k] != '.' {
      var k :| sepIndex < k < dotIndex && p[k] != '.';
      var d := dotIndex - o;
      assert b[d] == '.' && b[k - o] != '.';
      assert !AllDotsLeading(b);
      assert Extension(p) == b[d..];
    } else {
      forall i, j | 0 <= i < j < |b| && b[j] == '.'
        ensures b[i] == '.'
      {
        assert p[o + j] == '.';
        assert o + j <= dotIndex;
        assert p[o + i] == b[i];
      }
    }
  }

  /** Naming a file `<stem><ext>`, with a dot-free stem that is not empty and
      an extension made of one dot and dot-free text, gives back `<ext>`. */
  lemma ExtensionOfName(dir: string, stem: string, ext: string)
    requires dir == [] || dir[|dir| - 1] == '/'
    requires |stem| > 0 && '.' !in stem && '/' !in stem
    requires |ext| > 0 && ext[0] == '.' && '.' !in ext[1..] && '/' !in ext
    ensures Extension(dir + (stem + ext)) == ext
  {
    var b := stem + ext;
    BasenameBelowDir(dir, b);
    ExtensionOfBasename(dir + b);
    assert b[0] != '.' && b[|stem|] == '.';
    assert !AllDotsLeading(b);
    var e := Extension(dir + b);
    var q := |b| - |e|;
    assert b[q] == '.';
    assert q == |stem|;
  }
}
