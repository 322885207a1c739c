/** resolveEnvPlaceholders: ${NAME} replaced in every string of a value tree, in one pass. A map `env`
    gives what process.env[name] yields as text, names that process.env inherits among them; a name
    that is not in the map yields undefined. */
module EnvPlaceholders {
  import opened Sequences
  import opened Ascii

  /** Err names the variable that is not set. */
  datatype Resolved<+T> = Ok(value: T) | Err(name: string)

  predicate IsNameStart(c: char) { 'A' <= c <= 'Z' || 'a' <= c <= 'z' || c == '_' }

  predicate IsNameChar(c: char) { IsNameStart(c) || '0' <= c <= '9' }

  predicate IsName(s: string)
  {
    s != "" && IsNameStart(s[0]) && forall i :: 0 <= i < |s| ==> IsNameChar(s[i])
  }

  /** How many name characters the text starts with. */
  function NameLength(s: string): (n: nat)
    ensures n <= |s| && (n < |s| ==> !IsNameChar(s[n]))
    ensures forall i :: 0 <= i < n ==> IsNameChar(s[i])
  {
    if s != "" && IsNameChar(s[0]) then 1 + NameLength(s[1..]) else 0
  }

  /** The variable of the placeholder that the text starts with. */
  function PlaceholderAt(s: string): (name: Option<string>)
    ensures name.Some? ==>
              IsName(name.value) && |s| >= |name.value| + 3 && s[..|name.value| + 3] == Placeholder(name.value)
  {
    if |s| < 3 || s[0] != '$' || s[1] != '{' || !IsNameStart(s[2]) then None
    else
      var n := NameLength(s[2..]);
      if 2 + n < |s| && s[2 + n] == '}' then
        assert s[..n + 3] == Placeholder(s[2..2 + n]);
        Some(s[2..2 + n])
      else None
  }

  function Placeholder(name: string): string { "${" + name + "}" }

  /** String.prototype.replace with the global pattern: left to right, results not looked at again. */
  function Resolve(env: map<string, string>, s: string): Resolved<string>
  {
    if s == "" then Ok("")
    else
      match PlaceholderAt(s)
      case Some(name) =>
        if name !in env then Err(name)
        else
          (match Resolve(env, s[|name| + 3..])
           case Ok(rest) => Ok(env[name] + rest)
           case Err(unset) => Err(unset))
      case None =>
        match Resolve(env, s[1..])
        case Ok(rest) => Ok([s[0]] + rest)
        case Err(unset) => Err(unset)
  }

  // ----- texts as literals and references -----

  datatype Piece = Lit(text: string) | Ref(name: string)

  function RenderPiece(p: Piece): string { if p.Lit? then p.text else Placeholder(p.name) }

  function Render(pieces: seq<Piece>): string
  {
    if pieces == [] then "" else RenderPiece(pieces[0]) + Render(pieces[1..])
  }

  /** The meaning of a template: literals as they are, variables by their values. */
  function Fill(env: map<string, string>, pieces: seq<Piece>): Resolved<string>
  {
    if pieces == [] then Ok("")
    else if pieces[0].Ref? && pieces[0].name !in env then Err(pieces[0].name)
    else
      match Fill(env, pieces[1..])
      case Ok(rest) => Ok((if pieces[0].Lit? then pieces[0].text else env[pieces[0].name]) + rest)
      case Err(unset) => Err(unset)
  }

  /** A literal text put in front, joined with a literal that is there already. */
  function Front(text: string, pieces: seq<Piece>): seq<Piece>
  {
    if text == "" then pieces
    else if pieces != [] && pieces[0].Lit? then [Lit(text + pieces[0].text)] + pieces[1..]
    else [Lit(text)] + pieces
  }

  /** The template that a text is. */
  function Scan(s: string): seq<Piece>
  {
    if s == "" then []
    else
      match PlaceholderAt(s)
      case Some(name) => [Ref(name)] + Scan(s[|name| + 3..])
      case None => Front([s[0]], Scan(s[1..]))
  }

  /** Adjacent literals joined, empty ones dropped. */
  function Merge(pieces: seq<Piece>): seq<Piece>
  {
    if pieces == [] then []
    else if pieces[0].Ref? then [pieces[0]] + Merge(pieces[1..])
    else Front(pieces[0].text, Merge(pieces[1..]))
  }

  predicate NoPlaceholder(text: string)
  {
    forall i :: 0 <= i <= |text| ==> PlaceholderAt(text[i..]).None?
  }

  /** Literals are nonempty and apart from each other; references have proper names. */
  predicate Merged(pieces: seq<Piece>)
  {
    && (forall i :: 0 <= i < |pieces| ==> match pieces[i] case Lit(text) => text != "" case Ref(name) => IsName(name))
    && (forall i :: 0 <= i < |pieces| - 1 ==> pieces[i].Ref? || pieces[i + 1].Ref?)
  }

  /** And no literal has a placeholder in it. */
  predicate Normal(pieces: seq<Piece>)
  {
    Merged(pieces) && forall i :: 0 <= i < |pieces| && pieces[i].Lit? ==> NoPlaceholder(pieces[i].text)
  }

  lemma RenderFront(text: string, pieces: seq<Piece>)
    ensures Render(Front(text, pieces)) == text + Render(pieces)
  {
    var front := Front(text, pieces);
    if text == "" {
    } else if pieces != [] && pieces[0].Lit? {
      assert front[1..] == pieces[1..];
      assert (text + pieces[0].text) + Render(pieces[1..]) == text + (pieces[0].text + Render(pieces[1..]));
    } else {
      assert front[1..] == pieces;
    }
  }

  lemma FillFront(env: map<string, string>, text: string, pieces: seq<Piece>)
    ensures Fill(env, Front(text, pieces)) ==
            match Fill(env, pieces) case Ok(rest) => Ok(text + rest) case Err(unset) => Err(unset)
  {
    var front := Front(text, pieces);
    if text == "" {
      assert Fill(env, pieces).Ok? ==> text + Fill(env, pieces).value == Fill(env, pieces).value;
    } else if pieces != [] && pieces[0].Lit? {
      assert front[1..] == pieces[1..];
      if Fill(env, pieces[1..]).Ok? {
        var rest := Fill(env, pieces[1..]).value;
        assert (text + pieces[0].text) + rest == text + (pieces[0].text + rest);
      }
    } else {
      assert front[1..] == pieces;
    }
  }

  /** Scanning loses nothing. */
  lemma RenderRef(name: string, pieces: seq<Piece>)
    ensures Render([Ref(name)] + pieces) == Placeholder(name) + Render(pieces)
  {
    assert ([Ref(name)] + pieces)[1..] == pieces;
  }

  lemma {:induction false} RenderScan(s: string)
    ensures Render(Scan(s)) == s
  {
    if s != "" {
      match PlaceholderAt(s)
      case Some(name) =>
        var rest := s[|name| + 3..];
        RenderScan(rest);
        RenderRef(name, Scan(rest));
        assert s == s[..|name| + 3] + rest;
      case None =>
        RenderScan(s[1..]);
        RenderFront([s[0]], Scan(s[1..]));
        assert s == [s[0]] + s[1..];
    }
  }

  /** The replacement gives a text the meaning of its template. */
  lemma {:induction false} ResolveIsFill(env: map<string, string>, s: string)
    ensures Resolve(env, s) == Fill(env, Scan(s))
  {
    if s != "" {
      match PlaceholderAt(s)
      case Some(name) =>
        var rest := s[|name| + 3..];
        ResolveIsFill(env, rest);
        assert ([Ref(name)] + Scan(rest))[1..] == Scan(rest);
      case None =>
        ResolveIsFill(env, s[1..]);
        FillFront(env, [s[0]], Scan(s[1..]));
    }
  }

  // ----- templates read back from their texts -----

  lemma {:induction false} NameLengthBefore(s: string, t: string)
    requires t == "" || !IsNameChar(t[0])
    ensures NameLength(s + t) == NameLength(s)
  {
    if s == "" {
      assert s + t == t;
    } else {
      assert (s + t)[1..] == s[1..] + t;
      NameLengthBefore(s[1..], t);
    }
  }

  /** A text that starts no placeholder starts none either with '$' or nothing behind it. */
  lemma NoPlaceholderAcross(s: string, t: string)
    requires s != "" && PlaceholderAt(s).None? && (t == "" || t[0] == '$')
    ensures PlaceholderAt(s + t).None?
  {
    if |s| >= 3 {
      assert (s + t)[2..] == s[2..] + t;
      NameLengthBefore(s[2..], t);
    }
  }

  lemma {:induction false} PlaceholderReads(name: string, t: string)
    requires IsName(name)
    ensures PlaceholderAt(Placeholder(name) + t) == Some(name)
  {
    var s := Placeholder(name) + t;
    assert s[2..] == name + ("}" + t);
    NameLengthBefore(name, "}" + t);
    AllNameChars(name);
    assert s[2..2 + |name|] == name;
  }

  lemma {:induction false} AllNameChars(s: string)
    requires forall i :: 0 <= i < |s| ==> IsNameChar(s[i])
    ensures NameLength(s) == |s|
  {
    if s != "" {
      AllNameChars(s[1..]);
    }
  }

  lemma FrontFront(a: string, b: string, pieces: seq<Piece>)
    ensures Front(a, Front(b, pieces)) == Front(a + b, pieces)
  {
    if a == "" {
      assert a + b == b;
    } else if b == "" {
      assert a + b == a;
    } else if pieces != [] && pieces[0].Lit? {
      assert a + (b + pieces[0].text) == (a + b) + pieces[0].text;
      assert Front(b, pieces)[1..] == pieces[1..];
    } else {
      assert Front(b, pieces)[1..] == pieces;
    }
  }

  lemma NoPlaceholderTail(text: string)
    requires NoPlaceholder(text) && text != ""
    ensures NoPlaceholder(text[1..]) && PlaceholderAt(text).None?
  {
    assert text[0..] == text;
    forall i | 0 <= i <= |text[1..]| ensures PlaceholderAt(text[1..][i..]).None?
    {
      assert text[1..][i..] == text[i + 1..];
    }
  }

  lemma ScanChar(s: string)
    requires s != "" && PlaceholderAt(s).None?
    ensures Scan(s) == Front([s[0]], Scan(s[1..]))
  {}

  lemma CharInFront(text: string, t: string)
    requires text != ""
    ensures (text + t)[0] == text[0] && (text + t)[1..] == text[1..] + t && text == [text[0]] + text[1..]
  {}

  lemma ScanLiteralStep(s: string, after: string, rest: string, text: string, scanned: seq<Piece>)
    requires s != "" && PlaceholderAt(s).None? && s[1..] == after && text == [s[0]] + rest
    requires Scan(after) == Front(rest, scanned)
    ensures Scan(s) == Front(text, scanned)
  {
    ScanChar(s);
    FrontFront([s[0]], rest, scanned);
  }

  /** A clean literal scans as itself in front of whatever follows. */
  lemma {:induction false} ScanLiteral(text: string, t: string)
    requires NoPlaceholder(text) && (t == "" || t[0] == '$')
    ensures Scan(text + t) == Front(text, Scan(t))
  {
    if text == "" {
      assert text + t == t;
    } else {
      var rest := text[1..];
      CharInFront(text, t);
      NoPlaceholderTail(text);
      NoPlaceholderAcross(text, t);
      ScanLiteral(rest, t);
      ScanLiteralStep(text + t, rest + t, rest, text, Scan(t));
    }
  }

  /** The text of a normal template scans back to the template. */
  lemma {:induction false} ScanRender(pieces: seq<Piece>)
    requires Normal(pieces)
    ensures Scan(Render(pieces)) == pieces
  {
    if pieces != [] {
      var rest := pieces[1..];
      NormalTail(pieces);
      ScanRender(rest);
      match pieces[0]
      case Ref(name) =>
        PlaceholderReads(name, Render(rest));
        assert Render(pieces)[|name| + 3..] == Render(rest);
      case Lit(text) =>
        RenderStart(rest);
        ScanLiteral(text, Render(rest));
    }
  }

  lemma MergedTail(pieces: seq<Piece>)
    requires Merged(pieces) && pieces != []
    ensures Merged(pieces[1..]) && (pieces[0].Lit? && |pieces| > 1 ==> pieces[1].Ref?)
  {
    assert pieces[0].Lit? && |pieces| > 1 ==> pieces[0].Ref? || pieces[0 + 1].Ref?;
  }

  lemma NormalTail(pieces: seq<Piece>)
    requires Normal(pieces) && pieces != []
    ensures Normal(pieces[1..]) && (pieces[0].Lit? && |pieces| > 1 ==> pieces[1].Ref?)
  {
    MergedTail(pieces);
  }

  lemma RenderStart(pieces: seq<Piece>)
    requires pieces != [] ==> pieces[0].Ref?
    ensures Render(pieces) == "" || Render(pieces)[0] == '$'
  {}

  /** What follows a placeholder does not undo it. */
  lemma PlaceholderPersists(s: string, t: string)
    requires PlaceholderAt(s + t).None?
    ensures PlaceholderAt(s).None?
  {
    if PlaceholderAt(s).Some? {
      var name := PlaceholderAt(s).value;
      var rest := s[|name| + 3..];
      assert s + t == Placeholder(name) + (rest + t);
      PlaceholderReads(name, rest + t);
    }
  }

  lemma NoPlaceholderLonger(c: char, text: string)
    requires NoPlaceholder(text) && PlaceholderAt([c] + text).None?
    ensures NoPlaceholder([c] + text)
  {
    var longer := [c] + text;
    forall i | 0 <= i <= |longer| ensures PlaceholderAt(longer[i..]).None?
    {
      if i == 0 {
        assert longer[0..] == longer;
      } else {
        assert longer[i..] == text[i - 1..];
      }
    }
  }

  lemma NoPlaceholderEmpty()
    ensures NoPlaceholder("")
  {}

  /** Scanning gives a normal template, so that texts and normal templates correspond one to one. */
  lemma {:induction false} ScanNormal(s: string)
    ensures Normal(Scan(s))
  {
    if s != "" {
      match PlaceholderAt(s)
      case Some(name) =>
        ScanNormal(s[|name| + 3..]);
      case None =>
        ScanNormal(s[1..]);
        RenderScan(s[1..]);
        NormalFront(s, Scan(s[1..]));
    }
  }

  lemma NormalFront(s: string, pieces: seq<Piece>)
    requires s != "" && PlaceholderAt(s).None? && Render(pieces) == s[1..] && Normal(pieces)
    ensures Normal(Front([s[0]], pieces))
  {
    if pieces != [] && pieces[0].Lit? {
      CleanPrefix(s, pieces[0].text, Render(pieces[1..]));
      LongerLiteral(s[0], pieces);
    } else {
      NoPlaceholderEmpty();
      CleanPrefix(s, "", Render(pieces));
      assert [s[0]] + "" == [s[0]];
      NewLiteral(s[0], pieces);
    }
  }

  lemma CleanPrefix(s: string, text: string, rest: string)
    requires s != "" && PlaceholderAt(s).None? && s[1..] == text + rest && NoPlaceholder(text)
    ensures NoPlaceholder([s[0]] + text)
  {
    assert s == ([s[0]] + text) + rest;
    PlaceholderPersists([s[0]] + text, rest);
    NoPlaceholderLonger(s[0], text);
  }

  lemma LongerLiteral(c: char, pieces: seq<Piece>)
    requires pieces != [] && pieces[0].Lit? && Normal(pieces) && NoPlaceholder([c] + pieces[0].text)
    ensures Normal(Front([c], pieces))
  {
    var front := Front([c], pieces);
    assert front[0] == Lit([c] + pieces[0].text);
    assert forall i :: 1 <= i < |front| ==> front[i] == pieces[i];
  }

  lemma NewLiteral(c: char, pieces: seq<Piece>)
    requires (pieces != [] ==> pieces[0].Ref?) && Normal(pieces) && NoPlaceholder([c])
    ensures Normal(Front([c], pieces))
  {
    var front := Front([c], pieces);
    assert front[0] == Lit([c]);
    assert forall i :: 1 <= i < |front| ==> front[i] == pieces[i - 1];
  }

  // ----- the theorem -----

  lemma {:induction false} MergeSound(env: map<string, string>, pieces: seq<Piece>)
    ensures Render(Merge(pieces)) == Render(pieces)
    ensures Fill(env, Merge(pieces)) == Fill(env, pieces)
  {
    if pieces != [] {
      MergeSound(env, pieces[1..]);
      if pieces[0].Lit? {
        RenderFront(pieces[0].text, Merge(pieces[1..]));
        FillFront(env, pieces[0].text, Merge(pieces[1..]));
      } else {
        assert Merge(pieces)[1..] == Merge(pieces[1..]);
      }
    }
  }

  /** A rendered sequence of literals and references is read back as such exactly when no literal, nor
      adjacent literals together, contain a placeholder. */
  lemma ReadBackIffNormal(pieces: seq<Piece>)
    ensures Scan(Render(pieces)) == Merge(pieces) <==> Normal(Merge(pieces))
  {
    MergeSound(map[], pieces);
    if Normal(Merge(pieces)) {
      ScanRender(Merge(pieces));
    }
    ScanNormal(Render(pieces));
  }

  // ----- a template that is not normal loses some of its literals -----

  function LitLength(pieces: seq<Piece>): nat
  {
    if pieces == [] then 0 else (if pieces[0].Lit? then |pieces[0].text| else 0) + LitLength(pieces[1..])
  }

  lemma LitLengthFront(text: string, pieces: seq<Piece>)
    ensures LitLength(Front(text, pieces)) == |text| + LitLength(pieces)
  {
    var front := Front(text, pieces);
    if text != "" {
      assert front[1..] == if pieces != [] && pieces[0].Lit? then pieces[1..] else pieces;
    }
  }

  /** A placeholder that begins in a literal ends in it, for what follows the literal starts with '$'. */
  lemma PlaceholderInside(t: string, rest: string, name: string)
    requires t != "" && (rest == "" || rest[0] == '$') && PlaceholderAt(t + rest) == Some(name)
    ensures |name| + 3 <= |t| && t == Placeholder(name) + t[|name| + 3..]
  {
    var s := t + rest;
    forall i | 1 <= i < |name| + 3
      ensures s[i] != '$'
    {
      assert s[i] == Placeholder(name)[i] == if i == 1 then '{' else if i == |name| + 2 then '}' else name[i - 2];
    }
    assert rest != "" ==> s[|t|] == rest[0];
    assert t[..|name| + 3] == s[..|name| + 3];
  }

  /** Scanning keeps the length of a literal exactly if there is no placeholder in it. */
  lemma {:induction false} ScanShortens(t: string, rest: string)
    requires rest == "" || rest[0] == '$'
    ensures LitLength(Scan(t + rest)) <= |t| + LitLength(Scan(rest))
    ensures LitLength(Scan(t + rest)) == |t| + LitLength(Scan(rest)) ==> NoPlaceholder(t)
  {
    if t == "" {
      assert t + rest == rest;
      NoPlaceholderEmpty();
    } else {
      match PlaceholderAt(t + rest)
      case Some(name) =>
        PlaceholderInside(t, rest, name);
        ScanShortens(t[|name| + 3..], rest);
        ShorterByPlaceholder(t, rest, name);
      case None =>
        ScanShortens(t[1..], rest);
        AsLongByOne(t, rest);
    }
  }

  lemma ShorterByPlaceholder(t: string, rest: string, name: string)
    requires |name| + 3 <= |t| && PlaceholderAt(t + rest) == Some(name)
    ensures LitLength(Scan(t + rest)) == LitLength(Scan(t[|name| + 3..] + rest))
  {
    var tail := t[|name| + 3..];
    assert (t + rest)[|name| + 3..] == tail + rest;
    assert ([Ref(name)] + Scan(tail + rest))[1..] == Scan(tail + rest);
  }

  lemma AsLongByOne(t: string, rest: string)
    requires t != "" && PlaceholderAt(t + rest).None?
    ensures LitLength(Scan(t + rest)) == 1 + LitLength(Scan(t[1..] + rest))
    ensures NoPlaceholder(t[1..]) ==> NoPlaceholder(t)
  {
    assert (t + rest)[1..] == t[1..] + rest && t == [t[0]] + t[1..];
    ScanChar(t + rest);
    LitLengthFront([t[0]], Scan(t[1..] + rest));
    PlaceholderPersists(t, rest);
    if NoPlaceholder(t[1..]) {
      NoPlaceholderLonger(t[0], t[1..]);
    }
  }

  lemma {:induction false} ScanLosesLiterals(pieces: seq<Piece>)
    requires Merged(pieces)
    ensures LitLength(Scan(Render(pieces))) <= LitLength(pieces)
    ensures LitLength(Scan(Render(pieces))) == LitLength(pieces) ==> Normal(pieces)
  {
    if pieces != [] {
      var rest := pieces[1..];
      MergedTail(pieces);
      ScanLosesLiterals(rest);
      match pieces[0]
      case Ref(name) =>
        PlaceholderReads(name, Render(rest));
        assert Render(pieces)[|name| + 3..] == Render(rest);
        assert ([Ref(name)] + Scan(Render(rest)))[1..] == Scan(Render(rest));
      case Lit(text) =>
        RenderStart(rest);
        ScanShortens(text, Render(rest));
      if Normal(rest) && (pieces[0].Lit? ==> NoPlaceholder(pieces[0].text)) {
        NormalCons(pieces);
      }
    }
  }

  lemma NormalCons(pieces: seq<Piece>)
    requires pieces != [] && Merged(pieces) && Normal(pieces[1..])
    requires pieces[0].Lit? ==> NoPlaceholder(pieces[0].text)
    ensures Normal(pieces)
  {
    assert forall i :: 1 <= i < |pieces| ==> pieces[i] == pieces[1..][i - 1];
  }

  lemma {:induction false} MergeMerges(pieces: seq<Piece>)
    requires forall i :: 0 <= i < |pieces| && pieces[i].Ref? ==> IsName(pieces[i].name)
    ensures Merged(Merge(pieces))
  {
    if pieces != [] {
      MergeMerges(pieces[1..]);
      match pieces[0]
      case Ref(name) => RefMerged(name, Merge(pieces[1..]));
      case Lit(text) => FrontMerged(text, Merge(pieces[1..]));
    }
  }

  lemma RefMerged(name: string, rest: seq<Piece>)
    requires IsName(name) && Merged(rest)
    ensures Merged([Ref(name)] + rest)
  {
    var pieces := [Ref(name)] + rest;
    assert forall i :: 1 <= i < |pieces| ==> pieces[i] == rest[i - 1];
  }

  lemma FrontMerged(text: string, rest: seq<Piece>)
    requires Merged(rest)
    ensures Merged(Front(text, rest))
  {
    var pieces := Front(text, rest);
    if text != "" && rest != [] && rest[0].Lit? {
      assert forall i :: 1 <= i < |rest| ==> pieces[i] == rest[i];
      assert |rest| > 1 ==> rest[1].Ref?;
    } else if text != "" {
      assert forall i :: 1 <= i < |pieces| ==> pieces[i] == rest[i - 1];
    }
  }

  /** Filled with empty values, a template is its literals. */
  lemma {:induction false} FillBlank(env: map<string, string>, pieces: seq<Piece>)
    requires forall name :: name in env ==> env[name] == ""
    ensures Fill(env, pieces).Ok? <==> forall i :: 0 <= i < |pieces| && pieces[i].Ref? ==> pieces[i].name in env
    ensures Fill(env, pieces).Ok? ==> |Fill(env, pieces).value| == LitLength(pieces)
  {
    if pieces != [] {
      FillBlank(env, pieces[1..]);
      assert forall i :: 1 <= i < |pieces| ==> pieces[i] == pieces[1..][i - 1];
    }
  }

  /** The variables that the template refers to, all set to the empty text. */
  function BlankNames(pieces: seq<Piece>): (env: map<string, string>)
    ensures forall name :: name in env <==> exists i :: 0 <= i < |pieces| && pieces[i] == Ref(name)
    ensures forall name :: name in env ==> env[name] == ""
  {
    if pieces == [] then map[]
    else if pieces[0].Ref? then BlankNames(pieces[1..])[pieces[0].name := ""]
    else BlankNames(pieces[1..])
  }

  /** Resolving the rendered template gives what the template means. */
  predicate Faithful(env: map<string, string>, pieces: seq<Piece>)
  {
    Resolve(env, Render(pieces)) == Fill(env, pieces)
  }

  /** With the variables of the scanned text all set to nothing, only a normal template resolves to its
      own literals. */
  lemma BlankTells(pieces: seq<Piece>)
    requires Faithful(BlankNames(Scan(Render(pieces))), pieces)
    ensures Normal(Merge(pieces))
  {
    var scanned := Scan(Render(pieces));
    var env := BlankNames(scanned);
    ResolveIsFill(env, Render(pieces));
    ScanNormal(Render(pieces));
    FillBlank(env, scanned);
    FillBlank(env, pieces);
    FillBlank(env, Merge(pieces));
    MergeSound(env, pieces);
    MergeMerges(pieces);
    ScanLosesLiterals(Merge(pieces));
  }

  /** Resolving a rendered template gives, whatever the variables are, the literals and the variables'
      values in order, the values verbatim and not looked at again, or names the first variable that is
      not set, exactly when no literal, nor adjacent literals together, contain a placeholder. */
  lemma ResolvingFillsIff(pieces: seq<Piece>)
    ensures (forall env :: Faithful(env, pieces)) <==> Normal(Merge(pieces))
  {
    if Normal(Merge(pieces)) {
      ReadBackIffNormal(pieces);
      forall env
        ensures Faithful(env, pieces)
      {
        ResolveIsFill(env, Render(pieces));
        MergeSound(env, pieces);
      }
    }
    if forall env :: Faithful(env, pieces) {
      BlankTells(pieces);
    }
  }

  /** A placeholder that only two adjacent literals make up is replaced all the same. */
  lemma LiteralsMakePlaceholder()
    ensures var pieces, env := [Lit("$"), Lit("{HOME}")], map["HOME" := "/root"];
            && Resolve(env, Render(pieces)) == Ok("/root") && Fill(env, pieces) == Ok("${HOME}")
            && !Normal(Merge(pieces))
  {
    assert "$" + "{HOME}" == Placeholder("HOME") == "${HOME}";
    AdjacentLiterals(map["HOME" := "/root"], [Lit("$"), Lit("{HOME}")], "$", "{HOME}", "HOME");
  }

  lemma AdjacentLiterals(env: map<string, string>, pieces: seq<Piece>, a: string, b: string, name: string)
    requires pieces == [Lit(a), Lit(b)] && a + b == Placeholder(name) && IsName(name)
    requires name in env && env[name] != Placeholder(name)
    ensures Resolve(env, Render(pieces)) == Ok(env[name]) && Fill(env, pieces) == Ok(Placeholder(name))
    ensures !Normal(Merge(pieces))
  {
    TwoLiterals(env, a, b);
    OnePlaceholder(env, name);
    assert !Faithful(env, pieces);
    ResolvingFillsIff(pieces);
  }

  lemma TwoLiterals(env: map<string, string>, a: string, b: string)
    ensures Render([Lit(a), Lit(b)]) == a + b && Fill(env, [Lit(a), Lit(b)]) == Ok(a + b)
  {
    assert [Lit(a), Lit(b)][1..] == [Lit(b)];
    OneLiteral(env, [Lit(b)], b);
  }

  lemma OneLiteral(env: map<string, string>, pieces: seq<Piece>, text: string)
    requires pieces == [Lit(text)]
    ensures Render(pieces) == text && Fill(env, pieces) == Ok(text)
  {
    assert Fill(env, pieces[1..]) == Ok("") && Render(pieces[1..]) == "";
    assert text + "" == text;
  }

  lemma OnePlaceholder(env: map<string, string>, name: string)
    requires name in env && IsName(name)
    ensures Resolve(env, Placeholder(name)) == Ok(env[name])
  {
    var text := Placeholder(name);
    assert text + "" == text;
    PlaceholderReads(name, "");
    assert text[|name| + 3..] == "";
    assert env[name] + "" == env[name];
  }

  // ----- names -----

  predicate IsLetter(c: char) { c in UPPER || c in LOWER || c == '_' }

  /** A name is a letter or an underscore, followed by any of those and digits. */
  lemma NamesAre(s: string)
    ensures IsName(s) <==>
            s != "" && IsLetter(s[0]) && forall i :: 0 <= i < |s| ==> IsLetter(s[i]) || s[i] in DIGITS
  {
    forall i | 0 <= i < |s| { Ranges(s[i]); }
  }

  /** Such a name in braces after a dollar sign is replaced by its value. */
  lemma NameIsReplaced(env: map<string, string>, name: string)
    requires name in env && name != "" && IsLetter(name[0])
    requires forall i :: 0 <= i < |name| ==> IsLetter(name[i]) || name[i] in DIGITS
    ensures Resolve(env, "${" + name + "}") == Ok(env[name])
  {
    NamesAre(name);
    OnePlaceholder(env, name);
  }

  // ----- value trees -----

  datatype Entry = Entry(key: string, value: Value)

  /** A parsed YAML value; `Other` is a number, boolean, null or anything else that is returned as it is. */
  datatype Value = Text(text: string) | Array(items: seq<Value>) | Object(entries: seq<Entry>) | Other(name: string)

  /** map with a callback that may throw: the results, or the first failure. */
  function Collect<T>(results: seq<Resolved<T>>): Resolved<seq<T>>
  {
    if results == [] then Ok([])
    else
      match results[0]
      case Err(unset) => Err(unset)
      case Ok(first) =>
        match Collect(results[1..])
        case Err(unset) => Err(unset)
        case Ok(rest) => Ok([first] + rest)
  }

  function ResolveTree(env: map<string, string>, v: Value): Resolved<Value>
  {
    match v
    case Text(s) => (match Resolve(env, s) case Ok(text) => Ok(Text(text)) case Err(unset) => Err(unset))
    case Array(items) =>
      (match Collect(seq(|items|, i requires 0 <= i < |items| => ResolveTree(env, items[i])))
       case Ok(done) => Ok(Array(done))
       case Err(unset) => Err(unset))
    case Object(entries) =>
      (match Collect(seq(|entries|, i requires 0 <= i < |entries| => ResolveTree(env, entries[i].value)))
       case Ok(done) => Ok(Object(Rekey(entries, done)))
       case Err(unset) => Err(unset))
    case Other(_) => Ok(v)
  }

  /** fromEntries of the same keys with new values. */
  function Rekey(entries: seq<Entry>, values: seq<Value>): seq<Entry>
  {
    seq(if |entries| < |values| then |entries| else |values|,
        i requires 0 <= i < |entries| && i < |values| => Entry(entries[i].key, values[i]))
  }

  // ----- what resolving a tree gives -----

  function PieceNames(pieces: seq<Piece>): seq<string>
  {
    if pieces == [] then []
    else if pieces[0].Ref? then [pieces[0].name] + PieceNames(pieces[1..])
    else PieceNames(pieces[1..])
  }

  /** The variables that the tree refers to, in order. */
  function References(v: Value): seq<string>
  {
    match v
    case Text(s) => PieceNames(Scan(s))
    case Array(items) => Flatten(seq(|items|, i requires 0 <= i < |items| => References(items[i])))
    case Object(entries) => Flatten(seq(|entries|, i requires 0 <= i < |entries| => References(entries[i].value)))
    case Other(_) => []
  }

  function FirstUnset(env: map<string, string>, names: seq<string>): Option<string>
  {
    if names == [] then None
    else if names[0] !in env then Some(names[0])
    else FirstUnset(env, names[1..])
  }

  /** The result has the shape and keys of the tree, and each text of it filled in. */
  predicate Fills(env: map<string, string>, v: Value, r: Value)
  {
    match v
    case Text(s) => r.Text? && Fill(env, Scan(s)) == Ok(r.text)
    case Array(items) =>
      r.Array? && |r.items| == |items| && forall i :: 0 <= i < |items| ==> Fills(env, items[i], r.items[i])
    case Object(entries) =>
      && r.Object? && |r.entries| == |entries|
      && forall i :: 0 <= i < |entries| ==>
           r.entries[i].key == entries[i].key && Fills(env, entries[i].value, r.entries[i].value)
    case Other(_) => r == v
  }

  lemma {:induction false} FirstUnsetAppend(env: map<string, string>, a: seq<string>, b: seq<string>)
    ensures FirstUnset(env, a + b) == if FirstUnset(env, a).Some? then FirstUnset(env, a) else FirstUnset(env, b)
  {
    if a == [] {
      assert a + b == b;
    } else {
      assert (a + b)[1..] == a[1..] + b;
      FirstUnsetAppend(env, a[1..], b);
    }
  }

  lemma {:induction false} FillFails(env: map<string, string>, pieces: seq<Piece>)
    ensures Failure(Fill(env, pieces)) == FirstUnset(env, PieceNames(pieces))
  {
    if pieces != [] {
      FillFails(env, pieces[1..]);
    }
  }

  function Failure<T>(r: Resolved<T>): Option<string> { match r case Ok(_) => None case Err(unset) => Some(unset) }

  lemma {:induction false} CollectFails<T>(env: map<string, string>, results: seq<Resolved<T>>, names: seq<seq<string>>)
    requires |results| == |names|
    requires forall i :: 0 <= i < |results| ==> Failure(results[i]) == FirstUnset(env, names[i])
    ensures Failure(Collect(results)) == FirstUnset(env, Flatten(names))
    ensures Collect(results).Ok? ==>
              |Collect(results).value| == |results|
              && forall i :: 0 <= i < |results| ==> results[i] == Ok(Collect(results).value[i])
  {
    if results != [] {
      assert forall i :: 0 <= i < |results[1..]| ==> results[1..][i] == results[i + 1] && names[1..][i] == names[i + 1];
      CollectFails(env, results[1..], names[1..]);
      FirstUnsetAppend(env, names[0], Flatten(names[1..]));
      if Collect(results).Ok? {
        assert forall i :: 1 <= i < |results| ==> results[i] == results[1..][i - 1];
      }
    }
  }

  /** Resolving a tree throws exactly when some variable it refers to is not set, naming the first such;
      otherwise the result has the tree's shape and keys, every text filled in. */
  lemma {:induction false} ResolvingATree(env: map<string, string>, v: Value)
    ensures Failure(ResolveTree(env, v)) == FirstUnset(env, References(v))
    ensures ResolveTree(env, v).Ok? ==> Fills(env, v, ResolveTree(env, v).value)
  {
    match v
    case Text(s) =>
      ResolveIsFill(env, s);
      FillFails(env, Scan(s));
    case Array(items) =>
      forall i | 0 <= i < |items| { ResolvingATree(env, items[i]); }
      CollectFails(env, seq(|items|, i requires 0 <= i < |items| => ResolveTree(env, items[i])),
                   seq(|items|, i requires 0 <= i < |items| => References(items[i])));
    case Object(entries) =>
      forall i | 0 <= i < |entries| { ResolvingATree(env, entries[i].value); }
      CollectFails(env, seq(|entries|, i requires 0 <= i < |entries| => ResolveTree(env, entries[i].value)),
                   seq(|entries|, i requires 0 <= i < |entries| => References(entries[i].value)));
    case Other(_) =>
  }
}
