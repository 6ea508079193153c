/**
 * The part of `pathlib.PurePosixPath` (Python 3.12) the all-runs mode uses to name its output
 * files: parsing a path, `str()`, `.name`, `.suffix`, `.stem`, `with_suffix` and `with_name`.
 */
module PosixPaths {
  import opened Wrappers
  import opened PyText

  /** A parsed path: its root ("", "/" or "//") and its components. */
  datatype PurePath = PurePath(root: string, tail: seq<string>)

  /** A component as parsing keeps it: not empty, not ".", and without a separator. */
  predicate IsPart(s: string)
  {
    |s| > 0 && s != "." && '/' !in s
  }

  predicate ValidPath(p: PurePath)
  {
    && (p.root == "" || p.root == "/" || p.root == "//")
    && forall k :: 0 <= k < |p.tail| ==> IsPart(p.tail[k])
  }

  /**
   * `posixpath.splitroot` without the drive: no root, a single "/" (which also stands for three
   * or more leading slashes), or exactly two leading slashes.
   */
  function SplitRoot(s: string): (r: (string, string))
    ensures r.0 + r.1 == s
    ensures r.0 == "" || r.0 == "/" || r.0 == "//"
  {
    if |s| == 0 || s[0] != '/' then ("", s)
    else if |s| < 2 || s[1] != '/' || (|s| >= 3 && s[2] == '/') then ("/", s[1..])
    else ("//", s[2..])
  }

  /** The pieces that are components: empty pieces and "." are dropped, order is kept. */
  function Parts(pieces: seq<string>): (r: seq<string>)
    ensures forall t :: t in r <==> t in pieces && |t| > 0 && t != "."
  {
    if |pieces| == 0 then []
    else (if |pieces[0]| > 0 && pieces[0] != "." then [pieces[0]] else []) + Parts(pieces[1..])
  }

  /** `PurePosixPath(s)` */
  function ParsePath(s: string): (p: PurePath)
    ensures ValidPath(p)
  {
    if |s| == 0 then PurePath("", [])
    else
      var (root, rel) := SplitRoot(s);
      var pieces := Split(rel, '/');
      var parts := Parts(pieces);
      assert forall t :: t in parts ==> '/' !in t by {
        forall t | t in parts ensures '/' !in t {
          var j :| 0 <= j < |pieces| && pieces[j] == t;
        }
      }
      PurePath(root, parts)
  }

  /** `str(path)`: the root followed by the components joined with "/", or "." when both are empty. */
  function Str(p: PurePath): string
  {
    var s := p.root + Join(p.tail, '/');
    if |s| == 0 then "." else s
  }

  /** `path.name`: the last component, or "" when there is none. */
  function Name(p: PurePath): string
  {
    if |p.tail| == 0 then "" else p.tail[|p.tail| - 1]
  }

  /** `s.rfind(c)`: the last position of c, or -1. */
  function RFind(s: string, c: char): (r: int)
    ensures -1 <= r < |s|
    ensures r >= 0 ==> s[r] == c
    ensures forall k :: r < k < |s| ==> s[k] != c
  {
    if |s| == 0 then -1
    else if s[|s| - 1] == c then |s| - 1
    else RFind(s[..|s| - 1], c)
  }

  /** `path.suffix`: from the last dot on, unless that dot is the first or the last character. */
  function Suffix(name: string): string
  {
    var i := RFind(name, '.');
    if 0 < i < |name| - 1 then name[i..] else ""
  }

  /** `path.stem`: the name without its suffix. */
  function Stem(name: string): string
  {
    var i := RFind(name, '.');
    if 0 < i < |name| - 1 then name[..i] else name
  }

  /**
   * The stem and the suffix split the name: the suffix is empty or a dot followed by at least one
   * character and no other dot, and a non-empty name has a non-empty stem.
   */
  lemma StemSuffix(name: string)
    ensures Stem(name) + Suffix(name) == name
    ensures Suffix(name) == "" || (|Suffix(name)| >= 2 && Suffix(name)[0] == '.' && '.' !in Suffix(name)[1..])
    ensures |name| > 0 ==> |Stem(name)| > 0
    ensures '/' !in name ==> '/' !in Stem(name)
  {
    var i := RFind(name, '.');
    if 0 < i < |name| - 1 {
      assert name[..i] + name[i..] == name;
      assert forall k :: 0 <= k < |name[i..][1..]| ==> name[i..][1..][k] == name[i + 1 + k];
    }
  }

  datatype PathError =
    | EmptyName                      // "... has an empty name"
    | InvalidName(name: string)      // "Invalid name ..."
    | InvalidSuffix(suffix: string)  // "Invalid suffix ..."

  /** `path.with_name(name)`: the last component replaced. */
  function WithName(p: PurePath, name: string): Result<PurePath, PathError>
  {
    if Name(p) == "" then Failure(EmptyName)
    else if name == "" || '/' in name || name == "." then Failure(InvalidName(name))
    else Success(PurePath(p.root, p.tail[..|p.tail| - 1] + [name]))
  }

  /**
   * `path.with_suffix(suffix)`: the suffix of the last component replaced. The new last component
   * is put in place directly, not through `with_name`, so a resulting name "." is not rejected.
   */
  function WithSuffix(p: PurePath, suffix: string): Result<PurePath, PathError>
  {
    if '/' in suffix then Failure(InvalidSuffix(suffix))
    else if (|suffix| > 0 && suffix[0] != '.') || suffix == "." then Failure(InvalidSuffix(suffix))
    else
      var name := Name(p);
      if name == "" then Failure(EmptyName)
      else
        var oldSuffix := Suffix(name);
        var newName := if oldSuffix == "" then name + suffix else name[..|name| - |oldSuffix|] + suffix;
        Success(PurePath(p.root, p.tail[..|p.tail| - 1] + [newName]))
  }

  /** with_name keeps the root and the parent and puts the new name last; it fails only as stated. */
  lemma WithNameSpec(p: PurePath, name: string)
    ensures WithName(p, name).Failure? <==> Name(p) == "" || !IsPart(name)
    ensures WithName(p, name).Success? ==>
      var q := WithName(p, name).value;
      q.root == p.root && |q.tail| == |p.tail| && q.tail[..|q.tail| - 1] == p.tail[..|p.tail| - 1] && Name(q) == name
  {
    if WithName(p, name).Success? {
      var q := WithName(p, name).value;
      assert q.tail[..|q.tail| - 1] == p.tail[..|p.tail| - 1];
    }
  }

  /**
   * A valid suffix replaces the old one: the root and the parent are kept and the new name is the
   * stem followed by the suffix, even when that is "."; where `with_name` accepts that name, the
   * result is the same. Giving a path its own suffix back changes nothing.
   */
  lemma WithSuffixSpec(p: PurePath, suffix: string)
    requires ValidPath(p) && Name(p) != "" && '/' !in suffix
    requires suffix == "" || (|suffix| >= 2 && suffix[0] == '.')
    ensures WithSuffix(p, suffix) == Success(PurePath(p.root, p.tail[..|p.tail| - 1] + [Stem(Name(p)) + suffix]))
    ensures Stem(Name(p)) + suffix != "." ==> WithSuffix(p, suffix) == WithName(p, Stem(Name(p)) + suffix)
    ensures suffix == Suffix(Name(p)) ==> WithSuffix(p, suffix) == Success(p)
  {
    var name := Name(p);
    StemSuffix(name);
    assert IsPart(p.tail[|p.tail| - 1]);
    var oldSuffix := Suffix(name);
    if oldSuffix != "" {
      assert name[..|name| - |oldSuffix|] == Stem(name);
    }
    if suffix == oldSuffix {
      assert Stem(name) + suffix == name;
      assert p.tail[..|p.tail| - 1] + [name] == p.tail;
    }
  }

  // ---------------------------------------------------------------------------
  // str(path) parses back
  // ---------------------------------------------------------------------------

  lemma {:induction false} PartsOfParts(pieces: seq<string>)
    requires forall k :: 0 <= k < |pieces| ==> IsPart(pieces[k])
    ensures Parts(pieces) == pieces
  {
    if |pieces| > 0 {
      PartsOfParts(pieces[1..]);
      assert [pieces[0]] + pieces[1..] == pieces;
    }
  }

  lemma {:induction false} JoinStartsWithFirst(parts: seq<string>, sep: char)
    requires |parts| >= 1
    ensures parts[0] <= Join(parts, sep)
  {
    if |parts| > 1 {
      assert Join(parts, sep) == parts[0] + ([sep] + Join(parts[1..], sep));
    }
  }

  /** The components joined with "/" parse back as the same components. */
  lemma RelativeRoundTrip(tail: seq<string>)
    requires forall k :: 0 <= k < |tail| ==> IsPart(tail[k])
    ensures Parts(Split(Join(tail, '/'), '/')) == tail
  {
    if |tail| == 0 {
      assert Split("", '/') == [""];
    } else {
      SplitJoin(tail, '/');
      PartsOfParts(tail);
    }
  }

  /** A root followed by text that does not start with "/" splits back into the two. */
  lemma SplitRootOf(root: string, rel: string)
    requires root == "" || root == "/" || root == "//"
    requires |root + rel| > 0 && (rel == "" || rel[0] != '/')
    ensures SplitRoot(root + rel) == (root, rel)
  {
    var s := root + rel;
    if root == "/" {
      assert s[1..] == rel;
    } else if root == "//" {
      assert s[2..] == rel;
    } else {
      assert s == rel;
    }
  }

  /** `PurePosixPath(str(p)) == p`: a parsed path's text parses back to it. */
  lemma ParseStr(p: PurePath)
    requires ValidPath(p)
    ensures ParsePath(Str(p)) == p
  {
    var rel := Join(p.tail, '/');
    RelativeRoundTrip(p.tail);
    if |p.tail| > 0 {
      JoinStartsWithFirst(p.tail, '/');
      assert IsPart(p.tail[0]);
      assert p.tail[0][0] in p.tail[0];
      assert rel[0] == p.tail[0][0];
    }
    if |p.root + rel| == 0 {
      assert Str(p) == ".";
      assert SplitRoot(".") == ("", ".");
      SplitNoSep(".", '/');
      assert Parts(["."]) == [];
    } else {
      assert Str(p) == p.root + rel;
      SplitRootOf(p.root, rel);
    }
  }

  /** Parsing normalises: the text of a parsed path parses to the same path. */
  lemma ParseIdempotent(s: string)
    ensures ParsePath(Str(ParsePath(s))) == ParsePath(s)
  {
    ParseStr(ParsePath(s));
  }

  // ---------------------------------------------------------------------------
  // The output file of one run in all-runs mode
  // ---------------------------------------------------------------------------

  /** The last component of a join is its tail end. */
  lemma {:induction false} JoinEndsWithLast(parts: seq<string>, sep: char)
    requires |parts| >= 1
    ensures var j := Join(parts, sep); var last := parts[|parts| - 1];
      |last| <= |j| && j[|j| - |last|..] == last
    decreases |parts|
  {
    if |parts| > 1 {
      JoinEndsWithLast(parts[1..], sep);
      var rest := Join(parts[1..], sep);
      assert Join(parts, sep) == (parts[0] + [sep]) + rest;
    }
  }

  /**
   * `Path(output).with_suffix("")`, then `.with_name(f"{base.name}_{run_id}.json")`: the file
   * all-runs mode writes run `runId` to.
   */
  function OutputPath(output: string, runId: string): Result<PurePath, PathError>
  {
    match WithSuffix(ParsePath(output), "")
    case Failure(e) => Failure(e)
    case Success(base) => WithName(base, Name(base) + "_" + runId + ".json")
  }

  /** `Path(output).with_suffix("")`: the last component loses its suffix. */
  lemma OutputBase(output: string)
    ensures var p := ParsePath(output); var n := Name(p);
      && (n == "" ==> WithSuffix(p, "") == Failure(EmptyName))
      && (n != "" ==> WithSuffix(p, "") == Success(PurePath(p.root, p.tail[..|p.tail| - 1] + [Stem(n)])))
      && (n != "" ==> IsPart(n) && |Stem(n)| > 0 && '/' !in Stem(n))
  {
    var p := ParsePath(output);
    var n := Name(p);
    if n != "" {
      assert IsPart(p.tail[|p.tail| - 1]);
      StemSuffix(n);
      WithSuffixSpec(p, "");
      assert Stem(n) + "" == Stem(n);
    }
  }

  /**
   * The output file keeps the root and the directory of `-o`, and its name is the stem of the
   * `-o` name followed by `_<run_id>.json`. Deriving it fails exactly when `-o` has no name or
   * the run id holds a "/"; a stem "." (as in `..json`) gives `._<run_id>.json`.
   */
  lemma OutputPathSpec(output: string, runId: string)
    ensures var n := Name(ParsePath(output));
      OutputPath(output, runId).Success? <==> n != "" && '/' !in runId
    ensures OutputPath(output, runId).Success? ==>
      var p := ParsePath(output);
      var q := OutputPath(output, runId).value;
      && q.root == p.root && |q.tail| == |p.tail|
      && q.tail[..|q.tail| - 1] == p.tail[..|p.tail| - 1]
      && Name(q) == Stem(Name(p)) + "_" + runId + ".json"
  {
    var p := ParsePath(output);
    var n := Name(p);
    OutputBase(output);
    if n != "" {
      var base := PurePath(p.root, p.tail[..|p.tail| - 1] + [Stem(n)]);
      assert Name(base) == Stem(n);
      var name := Stem(n) + "_" + runId + ".json";
      assert OutputPath(output, runId) == WithName(base, name);
      OutputNameIsPart(Stem(n), runId);
      WithNameSpec(base, name);
      assert base.tail[..|base.tail| - 1] == p.tail[..|p.tail| - 1];
    }
  }

  /** The new name is a valid component exactly when the run id holds no "/". */
  lemma OutputNameIsPart(stem: string, runId: string)
    requires |stem| > 0 && '/' !in stem
    ensures IsPart(stem + "_" + runId + ".json") <==> '/' !in runId
  {
    var name := stem + "_" + runId + ".json";
    assert name == stem + ("_" + runId + ".json");
    assert name[0] == stem[0];
  }

  /** The output path is a parsed path: its components are valid, so its text parses back to it. */
  lemma OutputPathValid(output: string, runId: string)
    requires OutputPath(output, runId).Success?
    ensures ValidPath(OutputPath(output, runId).value)
  {
    var p := ParsePath(output);
    var q := OutputPath(output, runId).value;
    OutputPathSpec(output, runId);
    OutputBase(output);
    OutputNameIsPart(Stem(Name(p)), runId);
    forall k | 0 <= k < |q.tail| ensures IsPart(q.tail[k]) {
      if k < |q.tail| - 1 {
        assert q.tail[k] == q.tail[..|q.tail| - 1][k];
      }
    }
  }

  /** `str(q)` ends with the name of q. */
  lemma StrEndsWithName(q: PurePath)
    requires |q.tail| >= 1
    ensures var s := Str(q); |Name(q)| <= |s| && s[|s| - |Name(q)|..] == Name(q)
  {
    var j := Join(q.tail, '/');
    JoinEndsWithLast(q.tail, '/');
    var name := Name(q);
    if |q.root + j| == 0 {
      assert |name| == 0;
    } else {
      var s := q.root + j;
      assert s[|s| - |name|..] == j[|j| - |name|..];
    }
  }

  /** The text of the output file ends in ".json", whatever the extension of `-o` was. */
  lemma OutputPathJson(output: string, runId: string)
    requires OutputPath(output, runId).Success?
    ensures var s := Str(OutputPath(output, runId).value); |s| >= 5 && s[|s| - 5..] == ".json"
  {
    OutputPathSpec(output, runId);
    var q := OutputPath(output, runId).value;
    var name := Name(q);
    StrEndsWithName(q);
    var s := Str(q);
    assert name[|name| - 5..] == ".json";
    assert s[|s| - 5..] == s[|s| - |name|..][|name| - 5..];
  }

  /** A name without "/" parses to a single relative component. */
  lemma ParseName(name: string)
    requires IsPart(name) && name[0] != '/'
    ensures ParsePath(name) == PurePath("", [name])
  {
    SplitNoSep(name, '/');
    assert Parts([name]) == [name] + Parts([]);
  }

  /** The last occurrence is the one with no occurrence after it. */
  lemma RFindAt(s: string, c: char, i: int)
    requires 0 <= i < |s| && s[i] == c && forall k :: i < k < |s| ==> s[k] != c
    ensures RFind(s, c) == i
  {
  }

  /** For a bare file name, the output file is the stem, the run id and ".json", in the current directory. */
  lemma OutputOfName(name: string, runId: string)
    requires IsPart(name) && name[0] != '/' && '/' !in runId
    ensures OutputPath(name, runId) == Success(PurePath("", [Stem(name) + "_" + runId + ".json"]))
    ensures Str(OutputPath(name, runId).value) == Stem(name) + "_" + runId + ".json"
  {
    var n := Stem(name) + "_" + runId + ".json";
    var p := ParsePath(name);
    ParseName(name);
    var b := PurePath("", [Stem(name)]);
    assert WithSuffix(p, "") == Success(b) by {
      OutputBase(name);
      assert p.tail[..0] + [Stem(name)] == [Stem(name)];
    }
    OutputNameIsPart(Stem(name), runId);
    assert OutputPath(name, runId) == WithName(b, n);
    assert b.tail[..0] + [n] == [n];
    StrOfName(n);
  }

  /** A one-component relative path is printed as that component. */
  lemma StrOfName(n: string)
    requires n != ""
    ensures Str(PurePath("", [n])) == n
  {
    assert Join([n], '/') == n;
  }

  /** `-o out.txt` gives `out_r.json` for run `r`: the extension is dropped. */
  lemma OutputPathReplacesExtension(output: string, runId: string)
    requires output == "out.txt" && runId == "r"
    ensures OutputPath(output, runId) == Success(PurePath("", ["out_r.json"]))
    ensures Str(OutputPath(output, runId).value) == "out_r.json"
  {
    RFindAt(output, '.', 3);
    var stem := Stem(output);
    assert stem == "out";
    OutputOfName(output, runId);
    OutName(stem, runId);
  }

  /** `-o a.b.json` gives `a.b_r.json` for run `r`: only the last suffix is dropped. */
  lemma OutputPathKeepsInnerDots(output: string, runId: string)
    requires output == "a.b.json" && runId == "r"
    ensures OutputPath(output, runId) == Success(PurePath("", ["a.b_r.json"]))
    ensures Str(OutputPath(output, runId).value) == "a.b_r.json"
  {
    RFindAt(output, '.', 3);
    var stem := Stem(output);
    assert stem == "a.b";
    OutputOfName(output, runId);
    DottedName(stem, runId);
  }

  /** `-o ..json` gives `._r.json` for run `r`: the stem "." is kept, not rejected. */
  lemma OutputPathDotStem(output: string, runId: string)
    requires output == "..json" && runId == "r"
    ensures OutputPath(output, runId) == Success(PurePath("", ["._r.json"]))
    ensures Str(OutputPath(output, runId).value) == "._r.json"
  {
    RFindAt(output, '.', 1);
    var stem := Stem(output);
    assert stem == ".";
    OutputOfName(output, runId);
    DotName(stem, runId);
  }

  lemma DotName(stem: string, runId: string)
    requires stem == "." && runId == "r"
    ensures stem + "_" + runId + ".json" == "._r.json"
  {
  }

  lemma OutName(stem: string, runId: string)
    requires stem == "out" && runId == "r"
    ensures stem + "_" + runId + ".json" == "out_r.json"
  {
  }

  lemma DottedName(stem: string, runId: string)
    requires stem == "a.b" && runId == "r"
    ensures stem + "_" + runId + ".json" == "a.b_r.json"
  {
  }
}
