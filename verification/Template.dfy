/** Templates with `{name}` placeholders: which names a text asks for, and what it renders to. */
module Template {
  import opened Common
  import Text

  predicate IsNameStart(c: char) { 'a' <= c <= 'z' || c == '_' }

  predicate IsNameChar(c: char) { IsNameStart(c) || '0' <= c <= '9' }

  predicate IsName(s: string) { s != "" && IsNameStart(s[0]) && forall i :: 0 <= i < |s| ==> IsNameChar(s[i]) }

  const LETTERS: set<char> := Text.SMALL + {'_'}
  const DIGITS: set<char> := {'0', '1', '2', '3', '4', '5', '6', '7', '8', '9'}

  lemma CharInFull(c: char)
    ensures IsNameStart(c) <==> c in LETTERS
    ensures IsNameChar(c) <==> c in LETTERS || c in DIGITS
  {
  }

  /** A name is made of small letters, digits and underscores, and does not start with a digit. */
  lemma NameInFull(s: string)
    ensures IsName(s) <==>
      s != "" && s[0] in LETTERS && forall i :: 0 <= i < |s| ==> s[i] in LETTERS || s[i] in DIGITS
  {
    forall i | 0 <= i < |s| ensures IsNameChar(s[i]) <==> s[i] in LETTERS || s[i] in DIGITS {
      CharInFull(s[i]);
    }
    if s != "" {
      CharInFull(s[0]);
    }
  }

  /** How many name characters a text starts with. */
  function NameLength(s: string): (n: nat)
    ensures n <= |s|
    ensures forall i :: 0 <= i < n ==> IsNameChar(s[i])
    ensures n < |s| ==> !IsNameChar(s[n])
  {
    if s != "" && IsNameChar(s[0]) then 1 + NameLength(s[1..]) else 0
  }

  /** The placeholder a text starts with. */
  function Leading(s: string): Option<string> {
    if s == "" || s[0] != '{' then None
    else
      var n := NameLength(s[1..]);
      if n > 0 && IsNameStart(s[1]) && n + 1 < |s| && s[n + 1] == '}' then Some(s[1..n + 1]) else None
  }

  /** A text starts with a placeholder exactly when it starts with a name in braces. */
  lemma LeadingExactly(s: string, name: string)
    ensures Leading(s) == Some(name) <==> IsName(name) && |name| + 2 <= |s| && s[..|name| + 2] == "{" + name + "}"
  {
    var braced := "{" + name + "}";
    if IsName(name) && |name| + 2 <= |s| && s[..|name| + 2] == braced {
      forall i | 0 <= i < |name| ensures s[1..][i] == name[i] {
        assert s[..|name| + 2][i + 1] == braced[i + 1];
      }
      assert s[|name| + 1] == braced[|name| + 1] == '}' && s[0] == braced[0];
      var n := NameLength(s[1..]);
      assert s[1..][|name|] == '}';
      assert n == |name|;
      assert s[1..n + 1] == name;
    }
    if Leading(s) == Some(name) {
      assert s[..|name| + 2] == braced;
      forall i | 0 <= i < |name| ensures IsNameChar(name[i]) {
        assert name[i] == s[1..][i];
      }
    }
  }

  /** A text taken apart from the left: placeholders as early as possible, single characters otherwise. */
  datatype Piece = Plain(c: char) | Slot(name: string)

  function Pieces(s: string): seq<Piece>
    decreases |s|
  {
    if s == "" then []
    else
      match Leading(s)
      case Some(name) => [Slot(name)] + Pieces(s[|name| + 2..])
      case None => [Plain(s[0])] + Pieces(s[1..])
  }

  function Written(p: Piece): string {
    match p
    case Plain(c) => [c]
    case Slot(name) => "{" + name + "}"
  }

  function Joined(pieces: seq<Piece>): string {
    if pieces == [] then "" else Written(pieces[0]) + Joined(pieces[1..])
  }

  /** Taking a text apart loses nothing. */
  lemma {:induction false} JoinedPieces(s: string)
    ensures Joined(Pieces(s)) == s
    decreases |s|
  {
    if s != "" {
      match Leading(s) {
        case Some(name) =>
          LeadingExactly(s, name);
          JoinedPieces(s[|name| + 2..]);
          assert s == s[..|name| + 2] + s[|name| + 2..];
        case None =>
          JoinedPieces(s[1..]);
          assert s == [s[0]] + s[1..];
      }
    }
  }

  /** The names a text asks for. */
  function Names(s: string): set<string> { set p | p in Pieces(s) && p.Slot? :: p.name }

  function Filled(pieces: seq<Piece>, vars: map<string, string>): string {
    if pieces == [] then ""
    else FilledOne(pieces[0], vars) + Filled(pieces[1..], vars)
  }

  function Missing(pieces: seq<Piece>, vars: map<string, string>): seq<string> {
    if pieces == [] then []
    else MissingOne(pieces[0], vars) + Missing(pieces[1..], vars)
  }

  lemma {:induction false} MissingExactly(pieces: seq<Piece>, vars: map<string, string>)
    ensures forall name :: name in Missing(pieces, vars) <==> Slot(name) in pieces && name !in vars
  {
    if pieces != [] {
      MissingExactly(pieces[1..], vars);
      assert pieces == [pieces[0]] + pieces[1..];
    }
  }

  /** The text with every placeholder replaced, or the names that have no value. */
  datatype Rendering = Rendered(text: string) | Lacks(names: seq<string>)

  /** What is behind the first piece of a text. */
  function Behind(s: string): (rest: string)
    requires s != ""
    ensures |rest| < |s|
  {
    match Leading(s)
    case Some(name) => s[|name| + 2..]
    case None => s[1..]
  }

  function First(s: string): Piece
    requires s != ""
  {
    match Leading(s)
    case Some(name) => Slot(name)
    case None => Plain(s[0])
  }

  function FilledOne(p: Piece, vars: map<string, string>): string {
    match p
    case Plain(c) => [c]
    case Slot(name) => if name in vars then vars[name] else ""
  }

  function MissingOne(p: Piece, vars: map<string, string>): seq<string> {
    if p.Slot? && p.name !in vars then [p.name] else []
  }

  /** What is written so far and what is to come make up the whole. */
  ghost predicate Underway(tmpl: string, vars: map<string, string>, rest: string, out: string, missing: seq<string>) {
    && out + Filled(Pieces(rest), vars) == Filled(Pieces(tmpl), vars)
    && missing + Missing(Pieces(rest), vars) == Missing(Pieces(tmpl), vars)
  }

  lemma FirstPiece(rest: string, vars: map<string, string>)
    requires rest != ""
    ensures Filled(Pieces(rest), vars) == FilledOne(First(rest), vars) + Filled(Pieces(Behind(rest)), vars)
    ensures Missing(Pieces(rest), vars) == MissingOne(First(rest), vars) + Missing(Pieces(Behind(rest)), vars)
  {
    var pieces := Pieces(rest);
    assert pieces == [First(rest)] + Pieces(Behind(rest));
    assert pieces[0] == First(rest) && pieces[1..] == Pieces(Behind(rest));
  }

  lemma Regroup<T>(a: seq<T>, b: seq<T>, c: seq<T>)
    ensures (a + b) + c == a + (b + c)
  {
  }

  lemma OnePiece(tmpl: string, vars: map<string, string>, rest: string, out: string, missing: seq<string>)
    requires rest != "" && Underway(tmpl, vars, rest, out, missing)
    ensures Underway(tmpl, vars, Behind(rest), out + FilledOne(First(rest), vars),
      missing + MissingOne(First(rest), vars))
  {
    FirstPiece(rest, vars);
    Regroup(out, FilledOne(First(rest), vars), Filled(Pieces(Behind(rest)), vars));
    Regroup(missing, MissingOne(First(rest), vars), Missing(Pieces(Behind(rest)), vars));
  }

  lemma AllPieces(tmpl: string, vars: map<string, string>, out: string, missing: seq<string>)
    requires Underway(tmpl, vars, "", out, missing)
    ensures out == Filled(Pieces(tmpl), vars) && missing == Missing(Pieces(tmpl), vars)
  {
  }

  method RenderPiece(piece: Piece, vars: map<string, string>, out: string, missing: seq<string>)
    returns (out': string, missing': seq<string>)
    ensures out' == out + FilledOne(piece, vars) && missing' == missing + MissingOne(piece, vars)
  {
    match piece {
      case Plain(c) =>
        out', missing' := out + [c], missing;
      case Slot(name) =>
        if name in vars {
          out', missing' := out + vars[name], missing;
        } else {
          out', missing' := out, missing + [name];
        }
    }
  }

  /** One pass from the left, as the regular expression's replacement does it. */
  method RenderTemplate(tmpl: string, vars: map<string, string>) returns (r: Rendering)
    ensures r == Render(tmpl, vars)
    ensures r.Rendered? <==> Names(tmpl) <= vars.Keys
    ensures r.Lacks? ==> forall name :: name in r.names <==> name in Names(tmpl) && name !in vars
  {
    var out, missing, rest := "", [], tmpl;
    while rest != ""
      invariant Underway(tmpl, vars, rest, out, missing)
      decreases |rest|
    {
      OnePiece(tmpl, vars, rest, out, missing);
      out, missing := RenderPiece(First(rest), vars, out, missing);
      rest := Behind(rest);
    }
    AllPieces(tmpl, vars, out, missing);
    RenderExactly(tmpl, vars);
    r := if missing == [] then Rendered(out) else Lacks(missing);
  }

  function Render(tmpl: string, vars: map<string, string>): Rendering {
    var missing := Missing(Pieces(tmpl), vars);
    if missing == [] then Rendered(Filled(Pieces(tmpl), vars)) else Lacks(missing)
  }

  /** Rendering fails exactly when a name has no value, and then says which. */
  lemma RenderExactly(tmpl: string, vars: map<string, string>)
    ensures Render(tmpl, vars).Rendered? <==> Names(tmpl) <= vars.Keys
    ensures Render(tmpl, vars).Lacks? ==>
      forall name :: name in Render(tmpl, vars).names <==> name in Names(tmpl) && name !in vars
  {
    MissingExactly(Pieces(tmpl), vars);
    var missing := Missing(Pieces(tmpl), vars);
    forall name ensures name in missing <==> name in Names(tmpl) && name !in vars {
      if name in Names(tmpl) && name !in vars {
        assert Slot(name) in Pieces(tmpl);
      }
      if name in missing {
        assert Slot(name) in Pieces(tmpl) && Slot(name).name == name;
      }
    }
    if missing != [] {
      assert missing[0] in missing;
    }
  }

  /** What rendering comes to, from the left: a name in braces becomes its value, any other character stays. */
  lemma RendersFromLeft(name: string, c: char, rest: string, vars: map<string, string>, text: string)
    requires Render(rest, vars) == Rendered(text)
    ensures IsName(name) && name in vars ==> Render("{" + name + "}" + rest, vars) == Rendered(vars[name] + text)
    ensures (forall n :: IsName(n) ==> !("{" + n + "}" <= [c] + rest)) ==>
      Render([c] + rest, vars) == Rendered([c] + text)
  {
    if IsName(name) && name in vars {
      var s := "{" + name + "}" + rest;
      LeadingExactly(s, name);
      assert s[|name| + 2..] == rest;
      FirstPiece(s, vars);
    }
    var s := [c] + rest;
    assert s[1..] == rest;
    match Leading(s) {
      case Some(n) =>
        LeadingExactly(s, n);
        assert "{" + n + "}" <= s;
      case None =>
        FirstPiece(s, vars);
    }
  }

  lemma RendersEmpty(vars: map<string, string>)
    ensures Render("", vars) == Rendered("")
  {
  }

  lemma SlotAlone(name: string, vars: map<string, string>)
    requires IsName(name) && name in vars
    ensures Render("{" + name + "}", vars) == Rendered(vars[name])
  {
    RendersEmpty(vars);
    RendersFromLeft(name, 'x', "", vars, "");
    assert "{" + name + "}" + "" == "{" + name + "}" && vars[name] + "" == vars[name];
  }

  /** Only the values of the names asked for matter. */
  lemma {:induction false} SameValuesSamePieces(pieces: seq<Piece>, vars: map<string, string>,
      other: map<string, string>)
    requires forall name :: Slot(name) in pieces ==> name in vars && name in other && vars[name] == other[name]
    ensures Filled(pieces, vars) == Filled(pieces, other)
    ensures Missing(pieces, vars) == [] && Missing(pieces, other) == []
  {
    if pieces != [] {
      var first, rest := pieces[0], pieces[1..];
      forall name | Slot(name) in rest ensures Slot(name) in pieces {
      }
      SameValuesSamePieces(rest, vars, other);
      SameValueSamePiece(first, pieces, vars, other);
    }
  }

  lemma SameValueSamePiece(p: Piece, pieces: seq<Piece>, vars: map<string, string>, other: map<string, string>)
    requires p in pieces
    requires forall name :: Slot(name) in pieces ==> name in vars && name in other && vars[name] == other[name]
    ensures FilledOne(p, vars) == FilledOne(p, other) && MissingOne(p, vars) == [] == MissingOne(p, other)
  {
    match p {
      case Plain(_) =>
      case Slot(name) => assert Slot(name) in pieces;
    }
  }

  lemma SameValuesSameText(tmpl: string, vars: map<string, string>, other: map<string, string>)
    requires forall name :: name in Names(tmpl) ==> name in vars && name in other && vars[name] == other[name]
    ensures Render(tmpl, vars) == Render(tmpl, other) == Rendered(Filled(Pieces(tmpl), vars))
  {
    forall name | Slot(name) in Pieces(tmpl) ensures name in Names(tmpl) {
      assert Slot(name).name == name;
    }
    SameValuesSamePieces(Pieces(tmpl), vars, other);
  }

  /** Giving every name back as its own placeholder renders a text to itself; so does asking for nothing. */
  lemma RendersToItself(s: string, vars: map<string, string>)
    requires forall name :: name in Names(s) ==> name in vars && vars[name] == "{" + name + "}"
    ensures Render(s, vars) == Rendered(s)
  {
    JoinedPieces(s);
    RenderExactly(s, vars);
    forall p | p in Pieces(s) ensures FilledOne(p, vars) == Written(p) {
      var name := if p.Slot? then p.name else "";
      assert p.Slot? ==> name in Names(s);
    }
    FilledIsJoined(Pieces(s), vars);
  }

  lemma {:induction false} FilledIsJoined(pieces: seq<Piece>, vars: map<string, string>)
    requires forall p :: p in pieces ==> FilledOne(p, vars) == Written(p)
    ensures Filled(pieces, vars) == Joined(pieces)
  {
    if pieces != [] {
      assert pieces[0] in pieces;
      FilledIsJoined(pieces[1..], vars);
    }
  }
}
