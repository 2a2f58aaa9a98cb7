/**
 * The POSIX `os.path` operations that the parser relies on: `splitext` on a
 * file name taken from a directory listing, `join` and `dirname`.
 */
module PyPath {

  /** Position of the last `c` in `s`, or -1 when there is none (`str.rfind`). */
  function LastIndexOf(s: string, c: char): (i: int)
    ensures -1 <= i < |s|
    ensures i >= 0 ==> s[i] == c
    ensures forall k :: i < k < |s| ==> s[k] != c
  {
    if s == [] then -1
    else if s[|s| - 1] == c then |s| - 1
    else LastIndexOf(s[..|s| - 1], c)
  }

  /**
   * `os.path.splitext(name)` for a name without a directory part: the extension
   * starts at the last dot, provided some character before that dot is not a
   * dot; otherwise the extension is empty.
   */
  function SplitExt(name: string): (string, string) {
    var dot := LastIndexOf(name, '.');
    if exists k :: 0 <= k < dot && name[k] != '.' then (name[..dot], name[dot..]) else (name, [])
  }

  /**
   * The two parts of `splitext` concatenate back to the name; the extension is
   * empty or one dot followed by no other dot; and it is non-empty exactly when
   * some dot in the name comes after a character that is not a dot.
   */
  lemma SplitExtSpec(name: string)
    ensures SplitExt(name).0 + SplitExt(name).1 == name
    ensures var ext := SplitExt(name).1; ext == [] || (ext[0] == '.' && '.' !in ext[1..])
    ensures SplitExt(name).1 != [] <==> exists k, m :: 0 <= k < m < |name| && name[k] != '.' && name[m] == '.'
  {
  }

  /** The stem of a name holds none of the characters the name does not hold. */
  lemma StemOmits(name: string, c: char)
    requires c !in name
    ensures c !in Stem(name)
  {
    SplitExtSpec(name);
    var stem := SplitExt(name).0;
    assert forall k :: 0 <= k < |stem| ==> stem[k] == name[k];
  }

  /** The name without its extension. */
  function Stem(name: string): string {
    SplitExt(name).0
  }

  /** The extension of the name, dot included, or the empty string. */
  function Extension(name: string): string {
    SplitExt(name).1
  }

  /** `posixpath.join(a, b)`: an absolute `b` replaces `a`; otherwise one slash separates them. */
  function Join(a: string, b: string): string {
    if b != [] && b[0] == '/' then b
    else if a == [] || a[|a| - 1] == '/' then a + b
    else a + ['/'] + b
  }

  /** `s.rstrip(c)`. */
  function StripTrailing(s: string, c: char): (r: string)
    ensures r <= s
    ensures forall k :: |r| <= k < |s| ==> s[k] == c
    ensures r == [] || r[|r| - 1] != c
  {
    if s == [] || s[|s| - 1] != c then s else StripTrailing(s[..|s| - 1], c)
  }

  /**
   * `posixpath.dirname(p)`: everything up to the last slash, with trailing
   * slashes removed unless the head consists of slashes only.
   */
  function DirName(p: string): string {
    var head := p[..LastIndexOf(p, '/') + 1];
    if exists k :: 0 <= k < |head| && head[k] != '/' then StripTrailing(head, '/') else head
  }

  /**
   * A file named by a directory listing lies in the folder it was joined to:
   * `dirname(join(folder, name)) == folder`, and the join puts exactly one
   * slash between them.
   */
  lemma DirNameOfJoin(folder: string, name: string)
    requires folder != [] && folder[|folder| - 1] != '/'
    requires '/' !in name
    ensures Join(folder, name) == folder + "/" + name
    ensures DirName(Join(folder, name)) == folder
  {
    var p := folder + "/" + name;
    assert p == Join(folder, name) by {
      assert name != [] ==> name[0] in name;
    }
    assert LastIndexOf(p, '/') == |folder| by {
      LastSlashOfJoin(folder, name);
    }
    var head := p[..|folder| + 1];
    assert head == folder + "/";
    assert head[|folder| - 1] != '/';
    StripOneSlash(folder);
  }

  /** The last slash of `folder/name` is the one the join inserted when `name` has none. */
  lemma LastSlashOfJoin(folder: string, name: string)
    requires '/' !in name
    ensures LastIndexOf(folder + "/" + name, '/') == |folder|
  {
    LastIndexOfAppend(folder + "/", name, '/');
  }

  /** Appending text without `c` leaves the last `c` where it was. */
  lemma {:induction false} LastIndexOfAppend(a: string, b: string, c: char)
    requires c !in b
    ensures LastIndexOf(a + b, c) == LastIndexOf(a, c)
    decreases |b|
  {
    if b == [] {
      assert a + b == a;
    } else {
      var init := b[..|b| - 1];
      assert (a + b)[..|a + b| - 1] == a + init;
      assert (a + b)[|a + b| - 1] == b[|b| - 1];
      assert b[|b| - 1] in b;
      assert c !in init by {
        assert forall k :: 0 <= k < |init| ==> init[k] == b[k];
      }
      LastIndexOfAppend(a, init, c);
    }
  }

  /** Stripping trailing slashes from `folder/` gives back a folder that does not end in a slash. */
  lemma StripOneSlash(folder: string)
    requires folder != [] && folder[|folder| - 1] != '/'
    ensures StripTrailing(folder + "/", '/') == folder
  {
    var head := folder + "/";
    assert head[|folder| - 1] == folder[|folder| - 1];
    var r := StripTrailing(head, '/');
    assert |r| == |folder|;
    assert forall k :: 0 <= k < |r| ==> r[k] == folder[k];
  }

  /**
   * `splitext(name)[1] == ".wav"` exactly when the name ends in ".wav" and
   * something other than a dot comes before that suffix.
   */
  lemma ExtensionWav(name: string)
    ensures Extension(name) == ".wav" <==>
      |name| > 4 && name[|name| - 4..] == ".wav" && exists k :: 0 <= k < |name| - 4 && name[k] != '.'
  {
    var r := SplitExt(name);
    SplitExtSpec(name);
    if r.1 == ".wav" {
      assert name[|name| - 4..] == r.1;
      var dot := LastIndexOf(name, '.');
      assert exists k :: 0 <= k < dot && name[k] != '.';
      assert |r.0| == dot;
    }
    if |name| > 4 && name[|name| - 4..] == ".wav" && exists k :: 0 <= k < |name| - 4 && name[k] != '.' {
      var k :| 0 <= k < |name| - 4 && name[k] != '.';
      assert name[|name| - 4] == '.';
      assert r.1 != [];
      assert forall j :: |name| - 4 < j < |name| ==> name[j] != '.';
      assert |r.1| == 4 by {
        assert forall j :: 0 <= j < |r.1| ==> name[|r.0| + j] == r.1[j];
      }
    }
  }
}
