/**
 * The sanitisers the upload, create-folder and delete-folder handlers apply
 * to user-supplied folder paths and file names:
 *   folder: `s.replace(/^\/+|\/+$/g, '').replace(/[^a-zA-Z0-9_\/-]/g, '-')`
 *   name:   `s.replace(/[^a-zA-Z0-9_-]/g, '-')`
 * Neither regex has the `u` flag, so each matches single UTF-16 code units:
 * a character outside the Basic Multilingual Plane becomes two dashes.
 */
module Sanitize {
  import opened Text

  predicate NameChar(c: char) {
    ('a' <= c <= 'z') || ('A' <= c <= 'Z') || ('0' <= c <= '9') || c == '_' || c == '-'
  }

  predicate FolderChar(c: char) {
    NameChar(c) || c == '/'
  }

  /** `s.replace(/^\/+/, '')`: drop the leading run of slashes. */
  function StripLeadingSlashes(s: string): (r: string)
    ensures |r| <= |s| && r == s[|s| - |r|..]
    ensures r == [] || r[0] != '/'
    ensures forall k :: 0 <= k < |s| - |r| ==> s[k] == '/'
    decreases |s|
  {
    if s != [] && s[0] == '/' then StripLeadingSlashes(s[1..]) else s
  }

  /** `s.replace(/\/+$/, '')`: drop the trailing run of slashes. */
  function StripTrailingSlashes(s: string): (r: string)
    ensures |r| <= |s| && r == s[..|r|]
    ensures r == [] || r[|r| - 1] != '/'
    ensures forall k :: |r| <= k < |s| ==> s[k] == '/'
    decreases |s|
  {
    if s != [] && s[|s| - 1] == '/' then StripTrailingSlashes(s[..|s| - 1]) else s
  }

  /**
   * `s.replace(/^\/+|\/+$/g, '')`. The global regex removes the leading run
   * at index 0 and then, since `^` cannot match later, the run that reaches
   * the end: the two strips one after the other.
   */
  function StripSlashes(s: string): string {
    StripTrailingSlashes(StripLeadingSlashes(s))
  }

  /** What the replacement writes for a rejected character: one `-` per UTF-16 code unit. */
  function Dashes(c: char): (r: string)
    ensures |r| == CodeUnits(c) && forall k :: 0 <= k < |r| ==> r[k] == '-'
  {
    if c > '\U{FFFF}' then "--" else "-"
  }

  /** The replacement's output for one character. */
  function Piece(c: char, keep: char -> bool): string {
    if keep(c) then [c] else Dashes(c)
  }

  /** A character's output is as long, in JavaScript's count, as the character. */
  lemma PieceUnits(c: char, keep: char -> bool)
    ensures Utf16Length(Piece(c, keep)) == CodeUnits(c)
    ensures forall k :: 0 <= k < |Piece(c, keep)| ==> Piece(c, keep)[k] == '-' || keep(Piece(c, keep)[k])
  {
    if keep(c) {
      assert [c][..0] == [];
    } else if c > '\U{FFFF}' {
      assert "--"[..1] == "-" && "-"[..0] == [];
    } else {
      assert "-"[..0] == [];
    }
  }

  /**
   * `s.replace(/[^…]/g, '-')` with `keep` the character class: kept
   * characters stay, every rejected code unit becomes `-`.
   */
  function Dashify(s: string, keep: char -> bool): string
    decreases |s|
  {
    if s == [] then [] else Dashify(s[..|s| - 1], keep) + Piece(s[|s| - 1], keep)
  }

  /** The output is as long as the input in JavaScript's count, and holds only kept characters and dashes. */
  lemma {:induction false} DashifyShape(s: string, keep: char -> bool)
    ensures Utf16Length(Dashify(s, keep)) == Utf16Length(s)
    ensures forall k :: 0 <= k < |Dashify(s, keep)| ==> Dashify(s, keep)[k] == '-' || keep(Dashify(s, keep)[k])
    decreases |s|
  {
    if s != [] {
      var init := s[..|s| - 1];
      var d := Dashify(init, keep);
      var p := Piece(s[|s| - 1], keep);
      DashifyShape(init, keep);
      PieceUnits(s[|s| - 1], keep);
      Utf16LengthAppend(d, p);
      assert forall k :: |d| <= k < |d + p| ==> (d + p)[k] == p[k - |d|];
    }
  }

  /** The replacement works character by character, so it distributes over concatenation. */
  lemma {:induction false} DashifyAppend(a: string, b: string, keep: char -> bool)
    ensures Dashify(a + b, keep) == Dashify(a, keep) + Dashify(b, keep)
    decreases |b|
  {
    if b == [] {
      assert a + b == a;
    } else {
      var init := b[..|b| - 1];
      assert (a + b)[..|a + b| - 1] == a + init && (a + b)[|a + b| - 1] == b[|b| - 1];
      DashifyAppend(a, init, keep);
    }
  }

  /** A text of kept characters only is left as it is. */
  lemma {:induction false} DashifyKept(s: string, keep: char -> bool)
    requires forall k :: 0 <= k < |s| ==> keep(s[k])
    ensures Dashify(s, keep) == s
    decreases |s|
  {
    if s != [] {
      DashifyKept(s[..|s| - 1], keep);
    }
  }

  /**
   * Inside the Basic Multilingual Plane the replacement keeps the length and
   * turns exactly the rejected characters into `-`.
   */
  lemma {:induction false} DashifyBmp(s: string, keep: char -> bool)
    requires InBmp(s)
    ensures |Dashify(s, keep)| == |s|
    ensures forall k :: 0 <= k < |s| ==> Dashify(s, keep)[k] == if keep(s[k]) then s[k] else '-'
    decreases |s|
  {
    if s != [] {
      var init := s[..|s| - 1];
      DashifyBmp(init, keep);
      assert forall k :: 0 <= k < |init| ==> init[k] == s[k];
    }
  }

  /** The first and last characters of the output come from the first and last characters of the input. */
  lemma DashifyEnds(s: string, keep: char -> bool)
    ensures Dashify(s, keep) == [] <==> s == []
    ensures s != [] ==> Dashify(s, keep)[0] == Piece(s[0], keep)[0]
    ensures s != [] ==> Dashify(s, keep)[|Dashify(s, keep)| - 1] == Piece(s[|s| - 1], keep)[|Piece(s[|s| - 1], keep)| - 1]
  {
    if s != [] {
      assert s == [s[0]] + s[1..];
      DashifyAppend([s[0]], s[1..], keep);
      assert [s[0]][..0] == [];
    }
  }

  /** `beyond` is a character outside the Basic Multilingual Plane: `a{beyond}` becomes `a--`. */
  lemma CleanNameBeyondBmp(beyond: char)
    requires beyond > '\U{FFFF}'
    ensures CleanName(['a', beyond]) == "a--"
  {
    var s := ['a', beyond];
    assert s[..1] == ['a'] && ['a'][..0] == [];
    assert Dashify(['a'], NameChar) == "a";
    assert !NameChar(beyond);
    assert Piece(beyond, NameChar) == "--";
  }

  /** The custom-file-name sanitiser: only `[A-Za-z0-9_-]` remains, and the JavaScript length is kept. */
  function CleanName(s: string): (r: string)
    ensures |r| == Utf16Length(s)
    ensures forall k :: 0 <= k < |r| ==> NameChar(r[k])
  {
    var r := Dashify(s, NameChar);
    DashifyShape(s, NameChar);
    AllowedInBmp(r);
    Utf16LengthBmp(r);
    r
  }

  /** Without characters beyond the Basic Multilingual Plane, allowed characters stay and every other becomes `-`. */
  lemma CleanNameBmp(s: string)
    requires InBmp(s)
    ensures |CleanName(s)| == |s|
    ensures forall k :: 0 <= k < |s| ==> (NameChar(s[k]) ==> CleanName(s)[k] == s[k]) && (!NameChar(s[k]) ==> CleanName(s)[k] == '-')
  {
    DashifyBmp(s, NameChar);
  }

  /** Removing slashes at either end never makes the text longer. */
  lemma StripSlashesShorter(s: string)
    ensures Utf16Length(StripSlashes(s)) <= Utf16Length(s)
  {
    var a := StripLeadingSlashes(s);
    Utf16LengthSuffix(s, |s| - |a|);
    Utf16LengthPrefix(a, |StripTrailingSlashes(a)|);
  }

  /** Neither end of the stripped text is a slash. */
  lemma StripSlashesEnds(s: string)
    ensures var b := StripSlashes(s); b == [] || (b[0] != '/' && b[|b| - 1] != '/')
  {
    var a := StripLeadingSlashes(s);
    var b := StripTrailingSlashes(a);
    if b != [] {
      assert b[0] == a[0];
    }
  }

  /** No character other than a slash turns into a slash. */
  lemma PieceNotSlash(c: char)
    requires c != '/'
    ensures var p := Piece(c, FolderChar); p != [] && p[0] != '/' && p[|p| - 1] != '/'
  {
  }

  /** Dashing a text that neither starts nor ends with a slash keeps it so. */
  lemma DashifyKeepsEnds(b: string)
    requires b == [] || (b[0] != '/' && b[|b| - 1] != '/')
    ensures var r := Dashify(b, FolderChar); r == [] || (r[0] != '/' && r[|r| - 1] != '/')
  {
    DashifyEnds(b, FolderChar);
    if b != [] {
      PieceNotSlash(b[0]);
      PieceNotSlash(b[|b| - 1]);
    }
  }

  /** The sanitisers' characters are ASCII. */
  lemma FolderCharInBmp(c: char)
    requires c == '-' || FolderChar(c)
    ensures c <= '\U{FFFF}'
  {
  }

  /** Text made of the sanitisers' characters lies in the Basic Multilingual Plane. */
  lemma AllowedInBmp(r: string)
    requires forall k :: 0 <= k < |r| ==> r[k] == '-' || FolderChar(r[k])
    ensures InBmp(r)
  {
    forall k | 0 <= k < |r| ensures r[k] <= '\U{FFFF}' {
      FolderCharInBmp(r[k]);
    }
  }

  /** The folder sanitiser shared by upload, create-folder and delete-folder. */
  function CleanFolder(s: string): (r: string)
    ensures |r| <= Utf16Length(s)
    ensures r == [] || (r[0] != '/' && r[|r| - 1] != '/')
    ensures forall k :: 0 <= k < |r| ==> FolderChar(r[k])
  {
    var b := StripSlashes(s);
    var r := Dashify(b, FolderChar);
    DashifyShape(b, FolderChar);
    StripSlashesEnds(s);
    DashifyKeepsEnds(b);
    AllowedInBmp(r);
    Utf16LengthBmp(r);
    StripSlashesShorter(s);
    r
  }

  /** The sanitised path is empty exactly when the input is nothing but slashes. */
  lemma CleanFolderEmpty(s: string)
    ensures CleanFolder(s) == [] <==> forall k :: 0 <= k < |s| ==> s[k] == '/'
  {
    var a := StripLeadingSlashes(s);
    var b := StripTrailingSlashes(a);
    assert CleanFolder(s) == Dashify(b, FolderChar);
    DashifyEnds(b, FolderChar);
    if a != [] {
      assert b != [] by {
        assert a[0] != '/';
      }
      assert s[|s| - |a|] == a[0];
    }
  }

  /** A folder path is clean when it has no slash at either end and only allowed characters. */
  predicate IsCleanFolder(s: string) {
    (s == [] || (s[0] != '/' && s[|s| - 1] != '/')) && forall k :: 0 <= k < |s| ==> FolderChar(s[k])
  }

  /** The sanitiser's fixed points are exactly the clean paths. */
  lemma CleanFolderFixedPoints(s: string)
    ensures CleanFolder(s) == s <==> IsCleanFolder(s)
  {
    if IsCleanFolder(s) {
      assert StripLeadingSlashes(s) == s;
      assert StripTrailingSlashes(s) == s;
      DashifyKept(s, FolderChar);
    }
  }

  /** Sanitising twice is sanitising once. */
  lemma CleanFolderIdempotent(s: string)
    ensures CleanFolder(CleanFolder(s)) == CleanFolder(s)
  {
    CleanFolderFixedPoints(CleanFolder(s));
  }

  /** A field of a JSON request body: absent, a string, or any other JSON value. */
  datatype JsonField = Absent | JsonString(text: string) | OtherJson

  /** The folder checks of create-folder and delete-folder. */
  datatype FolderCheck = Rejected(error: string) | Accepted(clean: string)

  const PathRequired := "Folder path is required"
  const InvalidPath := "Invalid folder path"

  /**
   * `if (!path || typeof path !== 'string')` → 400 `Folder path is required`;
   * then the sanitiser, and an empty result → 400 `Invalid folder path`.
   */
  function CheckFolder(path: JsonField): (r: FolderCheck)
    ensures r.Accepted? <==> path.JsonString? && exists k :: 0 <= k < |path.text| && path.text[k] != '/'
    ensures r.Accepted? ==> r.clean == CleanFolder(path.text) && r.clean != "" && IsCleanFolder(r.clean)
    ensures r == Rejected(PathRequired) <==> !path.JsonString? || path.text == ""
    ensures r.Rejected? ==> r.error == PathRequired || r.error == InvalidPath
  {
    if !path.JsonString? || path.text == "" then Rejected(PathRequired)
    else
      var clean := CleanFolder(path.text);
      CleanFolderEmpty(path.text);
      if clean == "" then Rejected(InvalidPath) else Accepted(clean)
  }
}
