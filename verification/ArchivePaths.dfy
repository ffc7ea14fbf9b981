/** The names of files and archive members: how they are normalised, and how paths are
    put together from them. */
module ArchivePaths {
  import opened Prelude

  /** Names joined by slashes. */
  function Slashed(names: seq<string>): string
  {
    if names == [] then ""
    else if |names| == 1 then names[0]
    else Slashed(names[..|names| - 1]) + "/" + names[|names| - 1]
  }

  /** What lies between the slashes of a text. */
  function Split(text: string): (r: seq<string>)
    ensures r != []
  {
    if text == "" then [""] else Headed(text[0], Split(text[1..]))
  }

  /** The pieces of a text when the character `c` comes before it. */
  function Headed(c: char, pieces: seq<string>): (r: seq<string>)
    requires pieces != []
    ensures r != []
  {
    if c == '/' then [""] + pieces else [[c] + pieces[0]] + pieces[1..]
  }

  /** The parts of a POSIX path: empty ones and single dots are dropped. */
  function Named(pieces: seq<string>): seq<string>
  {
    if pieces == [] then []
    else (if pieces[0] == "" || pieces[0] == "." then [] else [pieces[0]]) + Named(pieces[1..])
  }

  function Parts(text: string): seq<string> { Named(Split(text)) }

  function ForwardSlashes(text: string): string
  {
    seq(|text|, i requires 0 <= i < |text| => if text[i] == '\\' then '/' else text[i])
  }

  /** `_normalize_archive_path`: None where the code raises. */
  function NormalizedPath(nfkc: string -> string, name: string): Option<string>
  {
    var text := nfkc(ForwardSlashes(name));
    var parts := Parts(text);
    if text == "" || text[0] == '/' || ".." in parts then None
    else Some(if parts == [] then "." else Slashed(parts))
  }

  const MAX_PATH := 512

  /** `_normalize_archive_path` of the workspace export: None where the code raises. */
  function NormalizedMember(name: string): Option<string>
  {
    var text := ForwardSlashes(name);
    var parts := Parts(text);
    if text == "" || text[0] == '/' || (exists i :: 0 <= i < |text| && text[i] < ' ') then None
    else if ".." in parts || (parts != [] && parts[0] != "" && parts[0][|parts[0]| - 1] == ':') then None
    else
      var path := if parts == [] then "." else Slashed(parts);
      if |path| > MAX_PATH then None else Some(path)
  }

  function WithoutTrailingSlash(path: string): string
  {
    if path != "" && path[|path| - 1] == '/' then WithoutTrailingSlash(path[..|path| - 1]) else path
  }

  function WithoutLeadingSlash(path: string): string
  {
    if path != "" && path[0] == '/' then WithoutLeadingSlash(path[1..]) else path
  }

  /** `_join_relative`. */
  function JoinedPath(root: string, child: string): Option<string>
  {
    var path := WithoutTrailingSlash(root) + "/" + WithoutLeadingSlash(child);
    if |path| > MAX_PATH then None else Some(path)
  }

  // ---------------------------------------------------------------- properties

  /** Not empty, and without a slash at the end. */
  predicate Clean(name: string) { name != "" && name[|name| - 1] != '/' }

  ghost predicate AllClean(names: seq<string>)
  {
    forall i :: 0 <= i < |names| ==> Clean(names[i])
  }

  lemma {:induction false} SlashedIsClean(names: seq<string>)
    requires AllClean(names) && names != []
    ensures Clean(Slashed(names))
  {
  }

  ghost predicate ArePieces(pieces: seq<string>)
  {
    forall x :: x in pieces ==> '/' !in x
  }

  lemma {:induction false} SplitGivesPieces(text: string)
    ensures ArePieces(Split(text))
  {
    if text != "" {
      var rest := Split(text[1..]);
      SplitGivesPieces(text[1..]);
      forall x | x in Headed(text[0], rest) ensures '/' !in x {
        assert x in rest || x == "" || x == [text[0]] + rest[0];
      }
    }
  }

  lemma {:induction false} PieceIsUnsplit(text: string)
    requires '/' !in text
    ensures Split(text) == [text]
  {
    if text != "" {
      PieceIsUnsplit(text[1..]);
      assert text == [text[0]] + text[1..] && text[0] in text;
    }
  }

  lemma HeadedConcat(c: char, first: seq<string>, second: seq<string>)
    requires first != []
    ensures Headed(c, first + second) == Headed(c, first) + second
  {
    assert (first + second)[0] == first[0] && (first + second)[1..] == first[1..] + second;
  }

  lemma SplitHeaded(c: char, text: string)
    ensures Split([c] + text) == Headed(c, Split(text))
  {
    assert ([c] + text)[1..] == text;
  }

  lemma {:induction false} SplitAtSlash(a: string, b: string)
    ensures Split(a + ("/" + b)) == Split(a) + Split(b)
  {
    if a == "" {
      SplitHeaded('/', b);
      assert a + ("/" + b) == ['/'] + b;
    } else {
      var first, rest := Split(a[1..]), Split(b);
      SplitAtSlash(a[1..], b);
      SplitHeaded(a[0], a[1..] + ("/" + b));
      assert a + ("/" + b) == [a[0]] + (a[1..] + ("/" + b));
      HeadedConcat(a[0], first, rest);
    }
  }

  /** Joining and splitting are inverse on pieces. */
  lemma {:induction false} SplitSlashed(pieces: seq<string>)
    requires ArePieces(pieces) && pieces != []
    ensures Split(Slashed(pieces)) == pieces
  {
    var n := |pieces| - 1;
    PieceIsUnsplit(pieces[n]);
    if n > 0 {
      SplitSlashed(pieces[..n]);
      SplitAtSlash(Slashed(pieces[..n]), pieces[n]);
      assert Slashed(pieces) == Slashed(pieces[..n]) + ("/" + pieces[n]);
      assert pieces == pieces[..n] + [pieces[n]];
    }
  }

  lemma {:induction false} NamedKeeps(pieces: seq<string>)
    requires ArePieces(pieces)
    ensures ArePieces(Named(pieces))
    ensures forall x :: x in Named(pieces) <==> x in pieces && x != "" && x != "."
    ensures Named(Named(pieces)) == Named(pieces)
  {
    if pieces != [] {
      NamedKeeps(pieces[1..]);
      var first, rest := pieces[0], Named(pieces[1..]);
      assert forall x :: x in pieces <==> x == first || x in pieces[1..];
      if first != "" && first != "." {
        assert Named(pieces) == [first] + rest;
        assert ([first] + rest)[1..] == rest;
        assert forall x :: x in [first] + rest <==> x == first || x in rest;
      } else {
        assert Named(pieces) == rest;
      }
    }
  }

  /** Joining and splitting are inverse on names: a text of names is split into just
      those names. */
  lemma PartsOfSlashed(text: string)
    requires Parts(text) != []
    ensures Parts(Slashed(Parts(text))) == Parts(text)
    ensures ArePieces(Parts(text)) && AllClean(Parts(text))
  {
    var parts := Parts(text);
    SplitGivesPieces(text);
    NamedKeeps(Split(text));
    SplitSlashed(parts);
    forall i | 0 <= i < |parts| ensures Clean(parts[i]) {
      assert parts[i] in parts;
    }
  }

  /** A normalised name has exactly the named parts of the text, in order, none of
      them leading upwards, and starts and ends with none of the slashes. */
  lemma NormalizedStaysInside(nfkc: string -> string, name: string)
    requires NormalizedPath(nfkc, name).Some?
    ensures
      var path := NormalizedPath(nfkc, name).value;
      && Clean(path) && path[0] != '/'
      && Parts(path) == Parts(nfkc(ForwardSlashes(name)))
      && ".." !in Parts(path)
  {
    var parts := Parts(nfkc(ForwardSlashes(name)));
    if parts == [] {
      PieceIsUnsplit(".");
    } else {
      PartsOfSlashed(nfkc(ForwardSlashes(name)));
      SlashedIsClean(parts);
      StartsWithFirst(parts);
      assert parts[0] in parts;
    }
  }

  lemma {:induction false} StartsWithFirst(names: seq<string>)
    requires names != [] && names[0] != ""
    ensures Slashed(names) != "" && Slashed(names)[0] == names[0][0]
  {
    if |names| > 1 {
      StartsWithFirst(names[..|names| - 1]);
    }
  }

  /** Normalising a normalised name changes nothing, if NFKC leaves it as it is. */
  lemma NormalizedIsStable(nfkc: string -> string, name: string)
    requires NormalizedPath(nfkc, name).Some?
    requires
      var path := NormalizedPath(nfkc, name).value;
      nfkc(path) == path && forall i :: 0 <= i < |path| ==> path[i] != '\\'
    ensures NormalizedPath(nfkc, NormalizedPath(nfkc, name).value) == NormalizedPath(nfkc, name)
  {
    NormalizedStaysInside(nfkc, name);
    var path := NormalizedPath(nfkc, name).value;
    assert ForwardSlashes(path) == path;
  }

  /** The export's names stay inside too, and are short enough. */
  lemma MemberStaysInside(name: string)
    requires NormalizedMember(name).Some?
    ensures
      var path := NormalizedMember(name).value;
      && Clean(path) && path[0] != '/' && |path| <= MAX_PATH
      && Parts(path) == Parts(ForwardSlashes(name)) && ".." !in Parts(path)
  {
    NormalizedStaysInside(text => text, name);
  }

  /** A file's name is put behind the names above it, unless the path gets too long. */
  lemma JoinedIsSlashed(names: seq<string>, child: string)
    requires names != [] && AllClean(names) && (child != "" ==> child[0] != '/')
    ensures JoinedPath(Slashed(names), child)
         == if |Slashed(names + [child])| > MAX_PATH then None else Some(Slashed(names + [child]))
  {
    SlashedIsClean(names);
    assert (names + [child])[..|names|] == names;
  }
}
