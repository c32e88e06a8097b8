/**
 * Paths as the Rust standard library sees them on Unix, and the shell's
 * tilde expansion (`expand_tilde`).
 *
 * A path is compared, prefixed and stripped component by component, never
 * character by character: `~foo` does not start with `~`. A path is
 * therefore modelled as its sequence of components, and `Parse` turns the
 * text of a path into that sequence: a leading `/` is the root, a leading
 * `.` alone or followed by `/` is the current directory, the rest is split
 * on `/`, with empty parts and `.` parts skipped and `..` kept as the parent
 * directory.
 */
module Paths {
  import opened Wrappers

  datatype Component = RootDir | CurDir | ParentDir | Normal(name: string)

  type Path = seq<Component>

  /** The name of a `Normal` component: never empty, `.`, `..`, and never holding `/`. */
  predicate ValidName(name: string)
  {
    name != "" && name != "." && name != ".." && '/' !in name
  }

  /** A component that may follow the first one. */
  predicate InnerComponent(c: Component)
  {
    c == ParentDir || (c.Normal? && ValidName(c.name))
  }

  /** Components that are all parent steps or valid names. */
  predicate AllInner(q: Path)
  {
    forall k :: 0 <= k < |q| ==> InnerComponent(q[k])
  }

  /** The shape of every parsed path: only the first component may be the root or `.`. */
  predicate WellFormed(p: Path)
  {
    if |p| > 0 && (p[0] == RootDir || p[0] == CurDir) then AllInner(p[1..]) else AllInner(p)
  }

  // ---------------------------------------------------------------------
  // From text to components.

  /** Index of the first `/` in `s`, or `|s|` when there is none. */
  function SlashIndex(s: string): (i: nat)
    ensures i <= |s|
    ensures i < |s| ==> s[i] == '/'
    ensures forall k :: 0 <= k < i ==> s[k] != '/'
  {
    if s == [] || s[0] == '/' then 0 else 1 + SlashIndex(s[1..])
  }

  /** The component for one `/`-free part of a path; empty and `.` parts vanish. */
  function Part(w: string): Path
  {
    if w == "" || w == "." then []
    else if w == ".." then [ParentDir]
    else [Normal(w)]
  }

  /** Components of the text after any leading root or `.`. */
  function Body(s: string): Path
    decreases |s|
  {
    if s == [] then []
    else
      var i := SlashIndex(s);
      Part(s[..i]) + (if i < |s| then Body(s[i + 1..]) else [])
  }

  /**
   * `Path::new(s).components()`. The path is absolute exactly when its text
   * starts with `/`, and every component after the first is `..` or a name.
   */
  function Parse(s: string): (p: Path)
    ensures (|p| > 0 && p[0] == RootDir) <==> |s| > 0 && s[0] == '/'
    ensures |p| > 0 ==> AllInner(p[1..])
  {
    if |s| > 0 && s[0] == '/' then
      BodyValid(s[1..]);
      assert ([RootDir] + Body(s[1..]))[1..] == Body(s[1..]);
      [RootDir] + Body(s[1..])
    else if s == "." || (|s| > 1 && s[0] == '.' && s[1] == '/') then
      BodyValid(s[1..]);
      assert ([CurDir] + Body(s[1..]))[1..] == Body(s[1..]);
      [CurDir] + Body(s[1..])
    else
      BodyValid(s);
      assert |Body(s)| > 0 ==> InnerComponent(Body(s)[0]);
      Body(s)
  }

  /** The part of `s` before its first `/` is a valid component or nothing. */
  lemma {:induction false} PartValid(s: string)
    ensures AllInner(Part(s[..SlashIndex(s)]))
  {
    var w := s[..SlashIndex(s)];
    assert forall k :: 0 <= k < |w| ==> w[k] != '/';
  }

  lemma {:induction false} AllInnerConcat(a: Path, b: Path)
    requires AllInner(a) && AllInner(b)
    ensures AllInner(a + b)
  {
  }

  /** Every component of a body is a parent step or a valid name. */
  lemma {:induction false} BodyValid(s: string)
    ensures AllInner(Body(s))
    decreases |s|
  {
    if s != [] {
      var i := SlashIndex(s);
      PartValid(s);
      if i < |s| {
        BodyValid(s[i + 1..]);
        AllInnerConcat(Part(s[..i]), Body(s[i + 1..]));
      } else {
        assert Body(s) == Part(s[..i]) + [];
      }
    }
  }

  /** Parsing always gives a well-formed path. */
  lemma {:induction false} ParseWellFormed(s: string)
    ensures WellFormed(Parse(s))
  {
    if |s| > 0 && s[0] == '/' {
      BodyValid(s[1..]);
      assert ([RootDir] + Body(s[1..]))[1..] == Body(s[1..]);
    } else if s == "." || (|s| > 1 && s[0] == '.' && s[1] == '/') {
      BodyValid(s[1..]);
      assert ([CurDir] + Body(s[1..]))[1..] == Body(s[1..]);
    } else {
      BodyValid(s);
      if |Body(s)| > 0 {
        assert InnerComponent(Body(s)[0]);
      }
    }
  }

  // ---------------------------------------------------------------------
  // From components back to text.

  /** The text of one inner component. */
  function Name(c: Component): string
  {
    match c
    case RootDir => "/"
    case CurDir => "."
    case ParentDir => ".."
    case Normal(n) => n
  }

  /** Inner components written out with `/` between them. */
  function JoinNames(q: Path): string
  {
    if q == [] then ""
    else if |q| == 1 then Name(q[0])
    else Name(q[0]) + "/" + JoinNames(q[1..])
  }

  /** The text of a path, as `Path::display` writes a parsed one. */
  function Render(p: Path): string
  {
    if p == [] then ""
    else if p[0] == RootDir then "/" + JoinNames(p[1..])
    else if p[0] == CurDir then (if |p| == 1 then "." else "./" + JoinNames(p[1..]))
    else JoinNames(p)
  }

  /** The first part of the text of an inner component is that component. */
  lemma {:induction false} NameParts(c: Component)
    requires InnerComponent(c)
    ensures Part(Name(c)) == [c]
    ensures '/' !in Name(c) && Name(c) != [] && Name(c) != "."
  {
  }

  /** A `/`-free word followed by `/` splits at that slash. */
  lemma {:induction false} SlashIndexAfter(w: string, rest: string)
    requires '/' !in w && rest != [] && rest[0] == '/'
    ensures SlashIndex(w + rest) == |w|
    decreases |w|
  {
    if w != [] {
      assert (w + rest)[1..] == w[1..] + rest;
      SlashIndexAfter(w[1..], rest);
    }
  }

  /** A `/`-free word splits nowhere. */
  lemma {:induction false} SlashIndexNone(w: string)
    requires '/' !in w
    ensures SlashIndex(w) == |w|
    decreases |w|
  {
    if w != [] {
      SlashIndexNone(w[1..]);
    }
  }

  /** The body of joined inner components gives those components back. */
  lemma {:induction false} BodyJoinNames(q: Path)
    requires AllInner(q)
    ensures Body(JoinNames(q)) == q
    decreases |q|
  {
    if q != [] {
      var n := Name(q[0]);
      assert InnerComponent(q[0]);
      NameParts(q[0]);
      if |q| == 1 {
        SlashIndexNone(n);
        assert JoinNames(q)[..|n|] == n;
      } else {
        var s := JoinNames(q);
        var tail := JoinNames(q[1..]);
        assert s == n + ("/" + tail);
        SlashIndexAfter(n, "/" + tail);
        assert s[..|n|] == n;
        assert s[|n| + 1..] == tail;
        BodyJoinNames(q[1..]);
        assert [q[0]] + q[1..] == q;
      }
    }
  }

  /** A `/` that starts the text adds no component to the body. */
  lemma {:induction false} BodyLeadingSlash(x: string)
    ensures Body("/" + x) == Body(x)
  {
    assert SlashIndex("/" + x) == 0;
    assert ("/" + x)[..0] == "";
    assert ("/" + x)[1..] == x;
  }

  /** Text that starts neither with `/` nor with a `.` component parses as a body. */
  lemma {:induction false} ParsePlain(s: string)
    requires s == [] || (s[0] != '/' && s != "." && !(|s| > 1 && s[0] == '.' && s[1] == '/'))
    ensures Parse(s) == Body(s)
  {
  }

  /** Joined inner components start neither with `/` nor with a `.` component. */
  lemma {:induction false} JoinNamesPlain(q: Path)
    requires q != [] && AllInner(q)
    ensures var s := JoinNames(q); |s| > 0 && s[0] != '/' && s != "." && !(|s| > 1 && s[0] == '.' && s[1] == '/')
  {
    var s := JoinNames(q);
    var n := Name(q[0]);
    assert InnerComponent(q[0]);
    NameParts(q[0]);
    assert |s| >= |n| && s[..|n|] == n by {
      if |q| > 1 {
        assert s == n + ("/" + JoinNames(q[1..]));
      }
    }
    assert s[0] == n[0];
    if |n| > 1 {
      assert s[1] == n[1];
    } else if |q| > 1 {
      assert s == n + ("/" + JoinNames(q[1..]));
      assert n != ".";
    }
  }

  lemma {:induction false} ParseRenderRoot(q: Path)
    requires AllInner(q)
    ensures Parse(Render([RootDir] + q)) == [RootDir] + q
  {
    var s := Render([RootDir] + q);
    assert ([RootDir] + q)[1..] == q;
    assert s == "/" + JoinNames(q);
    assert s[1..] == JoinNames(q);
    BodyJoinNames(q);
  }

  lemma {:induction false} ParseRenderCur(q: Path)
    requires AllInner(q) && q != []
    ensures Parse(Render([CurDir] + q)) == [CurDir] + q
  {
    var j := JoinNames(q);
    var s := Render([CurDir] + q);
    assert ([CurDir] + q)[1..] == q;
    assert s == ['.', '/'] + j;
    assert s[0] == '.' && s[1] == '/' && s[1..] == ['/'] + j;
    assert Parse(s) == [CurDir] + Body(['/'] + j);
    BodyLeadingSlash(j);
    BodyJoinNames(q);
  }

  /** Parsing the text of a well-formed path gives the path back. */
  lemma {:induction false} ParseRender(p: Path)
    requires WellFormed(p)
    ensures Parse(Render(p)) == p
  {
    if p == [] {
    } else if p[0] == RootDir {
      ParseRenderRoot(p[1..]);
      assert [RootDir] + p[1..] == p;
    } else if p[0] == CurDir {
      if |p| == 1 {
        assert p == [CurDir];
      } else {
        ParseRenderCur(p[1..]);
        assert [CurDir] + p[1..] == p;
      }
    } else {
      JoinNamesPlain(p);
      ParsePlain(JoinNames(p));
      BodyJoinNames(p);
    }
  }

  // ---------------------------------------------------------------------
  // Component-wise prefix, strip and push.

  /**
   * `Path::starts_with`: `q` is a whole-component prefix of `p`, that is, `p`
   * is `q` followed by further components.
   */
  predicate StartsWith(p: Path, q: Path): (b: bool)
    ensures b <==> exists rest :: p == q + rest
  {
    assert |q| <= |p| && p[..|q|] == q ==> p == q + p[|q|..];
    |q| <= |p| && p[..|q|] == q
  }

  /** `Path::strip_prefix` for a prefix known to be there: what follows it. */
  function StripPrefix(p: Path, q: Path): (r: Path)
    requires StartsWith(p, q)
    ensures q + r == p
  {
    p[|q|..]
  }

  /**
   * `PathBuf::push`: an absolute path replaces the base, a relative one is
   * appended to it (the model pushes only paths without a leading `.`).
   */
  function Push(base: Path, q: Path): (r: Path)
    ensures IsAbsolute(q) ==> r == q
    ensures !IsAbsolute(q) ==> StartsWith(r, base) && StripPrefix(r, base) == q
  {
    if |q| > 0 && q[0] == RootDir then q
    else
      assert (base + q)[..|base|] == base;
      base + q
  }

  /** A path that begins at the root. */
  predicate IsAbsolute(p: Path)
  {
    |p| > 0 && p[0] == RootDir
  }

  /** `Path::new("~")`, and also `Path::new("~/")`. */
  const Tilde: Path := [Normal("~")]

  /** `Path::new("/")`. */
  const Root: Path := [RootDir]

  /** The constants are what the literals of `expand_tilde` parse to. */
  lemma {:induction false} TildeAndRootLiterals()
    ensures Parse("~") == Tilde && Parse("~/") == Tilde && Parse("/") == Root
  {
    assert SlashIndex("~") == 1;
    assert "~"[..1] == "~";
    assert SlashIndex("~/") == 1;
    assert "~/"[..1] == "~" && "~/"[2..] == [];
    assert "/"[1..] == [];
  }

  // ---------------------------------------------------------------------
  // Tilde expansion.

  /**
   * `expand_tilde`: a path whose first component is not `~` is returned as
   * it is; `~` itself becomes the home directory; `~/rest` becomes home with
   * `rest` pushed onto it, or `rest` alone when home is the root. An unknown
   * home makes every tilde path unexpandable.
   */
  function ExpandTilde(home: Option<Path>, p: Path): (r: Option<Path>)
    ensures r == None <==> home == None && StartsWith(p, Tilde)
    ensures !StartsWith(p, Tilde) ==> r == Some(p)
    ensures p == Tilde ==> r == home
  {
    if !StartsWith(p, Tilde) then Some(p)
    else if p == Tilde then home
    else match home
      case None => None
      case Some(h) =>
        if h == Root then Some(StripPrefix(p, Tilde))
        else Some(Push(h, StripPrefix(p, Tilde)))
  }

  /**
   * On text: a path starts with the `~` component exactly when it is `~` or
   * begins with `~/`. So `~user` and `~~` are left alone.
   */
  lemma {:induction false} ParseStartsWithTilde(s: string)
    ensures StartsWith(Parse(s), Tilde) <==> s == "~" || (|s| >= 2 && s[0] == '~' && s[1] == '/')
  {
    if |s| > 0 && s[0] == '/' {
    } else if s == "." || (|s| > 1 && s[0] == '.' && s[1] == '/') {
    } else if s != [] {
      var i := SlashIndex(s);
      var w := s[..i];
      BodyHead(s);
      assert Parse(s)[0] == Part(w)[0];
      if i == 1 {
        assert w == [s[0]];
      } else {
        assert |w| == i && w != "~";
        assert s[1] != '/';
      }
    }
  }

  /** The first component of a body that starts with a name is that name. */
  lemma {:induction false} BodyHead(s: string)
    requires s != [] && s[0] != '/' && s != "." && !(|s| > 1 && s[0] == '.' && s[1] == '/')
    ensures |Part(s[..SlashIndex(s)])| == 1 && |Body(s)| > 0
    ensures Body(s)[0] == Part(s[..SlashIndex(s)])[0]
  {
    var i := SlashIndex(s);
    var w := s[..i];
    assert i >= 1 && |w| == i;
    assert |Part(w)| == 1;
    if i < |s| {
      assert Body(s) == Part(w) + Body(s[i + 1..]);
    } else {
      assert Body(s) == Part(w) + [];
    }
  }

  /** `~/r` parses as the `~` component followed by the components of `r`. */
  lemma {:induction false} ParseTildeSlash(r: string)
    ensures Parse(['~', '/'] + r) == Tilde + Body(r)
  {
    var s := ['~', '/'] + r;
    assert SlashIndex(s) == 1 by {
      assert s[1..] == ['/'] + r;
    }
    assert s[..1] == "~";
    assert s[2..] == r;
  }

  /**
   * Expanding `~/r` when home is known: home itself when `r` names no
   * component, otherwise home joined with `r`, or `r` on its own when home is
   * the root. Since `r` is relative, the root case yields a relative path.
   */
  lemma {:induction false} ExpandTildeSlash(h: Path, r: string)
    ensures Body(r) == [] ==> ExpandTilde(Some(h), Parse(['~', '/'] + r)) == Some(h)
    ensures Body(r) != [] && h == Root ==>
      ExpandTilde(Some(h), Parse(['~', '/'] + r)) == Some(Body(r)) && !IsAbsolute(Body(r))
    ensures Body(r) != [] && h != Root ==>
      ExpandTilde(Some(h), Parse(['~', '/'] + r)) == Some(h + Body(r))
  {
    ParseTildeSlash(r);
    var p := Tilde + Body(r);
    assert p[..1] == Tilde && p[1..] == Body(r);
    BodyValid(r);
    if Body(r) != [] {
      assert InnerComponent(Body(r)[0]);
    }
  }

  /**
   * With an absolute home other than the root, every tilde path expands to
   * an absolute path that begins with home.
   */
  lemma {:induction false} ExpandTildeUnderHome(h: Path, p: Path)
    requires IsAbsolute(h) && h != Root && WellFormed(p) && StartsWith(p, Tilde)
    ensures ExpandTilde(Some(h), p).Some?
    ensures IsAbsolute(ExpandTilde(Some(h), p).value)
    ensures StartsWith(ExpandTilde(Some(h), p).value, h)
  {
    if p != Tilde {
      assert p[0] == Normal("~");
      assert InnerComponent(p[1]);
      var e := h + p[1..];
      assert e[..|h|] == h;
    }
  }
}
