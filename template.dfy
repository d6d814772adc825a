/**
 * Output formats of `tap search`: the `%[|]c` format language of the
 * `--format` and `--virtual-format` options, compiled to a sequence of
 * segments, and the rendering of one result line from a compiled format.
 */
module Template {
  import opened Wrappers
  import opened Text

  /** The fields of a result line a placeholder can name. */
  datatype Field = Name | Version | Arch | PackageName | Summary | State | Automatic | Upgrade

  /**
   * How a field is padded: not at all, to the widest displayed name, to the
   * widest version string, or to the fixed architecture column width.
   */
  datatype Align = Natural | NameColumn | VersionColumn | ArchColumn

  const ArchWidth := 6

  /** A compiled format: literal text or a field with its alignment. */
  datatype Segment = Lit(text: string) | Put(field: Field, align: Align)

  type Template = seq<Segment>

  /** Why a format argument is refused. */
  datatype FormatError =
    | MissingFormatArgument     // the option is the last argument
    | TruncatedPlaceholder      // `%` or `%|` at the end of the argument
    | UnknownFormatChar(c: char)

  /** The placeholder table: `|` aligns `n`, `v` and `a` and is ignored for the other fields. */
  function Placeholder(c: char, align: bool): Option<Segment> {
    match c
    case 'n' => Some(Put(Name, if align then NameColumn else Natural))
    case 'v' => Some(Put(Version, if align then VersionColumn else Natural))
    case 'a' => Some(Put(Arch, if align then ArchColumn else Natural))
    case 'p' => Some(Put(PackageName, Natural))
    case 'd' => Some(Put(Summary, Natural))
    case 's' => Some(Put(State, Natural))
    case 'A' => Some(Put(Automatic, Natural))
    case 'u' => Some(Put(Upgrade, Natural))
    case _ => None
  }

  /** The literal text before a placeholder; an empty run adds nothing. */
  function Lits(s: string): Template {
    if s == "" then [] else [Lit(s)]
  }

  function Prepend(t: Template, r: Result<Template, FormatError>): Result<Template, FormatError> {
    match r
    case Err(e) => Err(e)
    case Ok(u) => Ok(t + u)
  }

  /** What `search_format` stores for the format argument `s`, or the exception it raises. */
  function CompileFormat(s: string): Result<Template, FormatError>
    decreases |s|, 1
  {
    if s == "" then Ok([])
    else
      var index := Find(s, '%');
      if index < 0 then Ok([Lit(s)]) else AfterPercent(s[..index], s[index + 1..])
  }

  /** The literal text `lit` up to a `%`, then the placeholder starting `after` and the rest of the argument. */
  function AfterPercent(lit: string, after: string): Result<Template, FormatError>
    decreases |after|, 0
  {
    if after == "" then Err(TruncatedPlaceholder)
    else
      var align := after[0] == '|';
      var rest := if align then after[1..] else after;
      if rest == "" then Err(TruncatedPlaceholder)
      else
        match Placeholder(rest[0], align)
        case None => Err(UnknownFormatChar(rest[0]))
        case Some(seg) => Prepend(Lits(lit) + [seg], CompileFormat(rest[1..]))
  }

  /** The compiler's first step on an argument with a `%`. */
  lemma CompileAtPercent(s: string, index: int)
    requires 0 <= index < |s| && index == Find(s, '%')
    ensures CompileFormat(s) == AfterPercent(s[..index], s[index + 1..])
  {
  }

  /** The cases of the text after a `%`: nothing, a bare `|`, or a placeholder character. */
  lemma AfterPercentSteps(lit: string, after: string)
    ensures after == "" || after == "|" ==> AfterPercent(lit, after) == Err(TruncatedPlaceholder)
    ensures after != "" && after[0] != '|' ==>
      AfterPercent(lit, after) == match Placeholder(after[0], false)
        case None => Err(UnknownFormatChar(after[0]))
        case Some(seg) => Prepend(Lits(lit) + [seg], CompileFormat(after[1..]))
    ensures |after| >= 2 && after[0] == '|' ==>
      AfterPercent(lit, after) == match Placeholder(after[1], true)
        case None => Err(UnknownFormatChar(after[1]))
        case Some(seg) => Prepend(Lits(lit) + [seg], CompileFormat(after[2..]))
  {
    if |after| >= 2 && after[0] == '|' {
      assert after[1..][0] == after[1] && after[1..][1..] == after[2..];
    }
  }

  lemma PrependNothing(r: Result<Template, FormatError>)
    ensures Prepend([], r) == r
  {
    if r.Ok? {
      assert [] + r.value == r.value;
    }
  }

  lemma PrependTwice(t: Template, u: Template, r: Result<Template, FormatError>)
    ensures Prepend(t, Prepend(u, r)) == Prepend(t + u, r)
  {
    if r.Ok? {
      assert t + (u + r.value) == t + u + r.value;
    }
  }

  /** A `%` after literal text without one starts the first placeholder. */
  lemma FirstPercent(lit: string, more: string)
    requires '%' !in lit
    ensures CompileFormat(lit + ['%'] + more) == AfterPercent(lit, more)
  {
    var s := lit + ['%'] + more;
    assert s == lit + (['%'] + more);
    FindPastPrefix(lit, ['%'] + more, '%');
    assert s[..|lit|] == lit && s[|lit| + 1..] == more;
  }

  // ---------------------------------------------------------------------------
  // Writing a template back as a format argument

  function FieldChar(f: Field): char {
    match f
    case Name => 'n'
    case Version => 'v'
    case Arch => 'a'
    case PackageName => 'p'
    case Summary => 'd'
    case State => 's'
    case Automatic => 'A'
    case Upgrade => 'u'
  }

  /** The placeholder text of a field segment. */
  function PlaceholderText(f: Field, a: Align): string {
    if a == Natural then ['%', FieldChar(f)] else ['%', '|', FieldChar(f)]
  }

  /** A format argument that compiles to `t` when `t` is canonical. */
  function Source(t: Template): string {
    if t == [] then "" else SegmentSource(t[0]) + Source(t[1..])
  }

  function SegmentSource(seg: Segment): string {
    match seg
    case Lit(s) => s
    case Put(f, a) => PlaceholderText(f, a)
  }

  /** The alignments a placeholder can produce for each field. */
  predicate AlignFits(f: Field, a: Align) {
    a == Natural || (f == Name && a == NameColumn) || (f == Version && a == VersionColumn) || (f == Arch && a == ArchColumn)
  }

  /** A template `CompileFormat` can produce: non-empty literals without `%`, never two in a row. */
  ghost predicate Canonical(t: Template) {
    && (forall i :: 0 <= i < |t| && t[i].Lit? ==> t[i].text != "" && '%' !in t[i].text)
    && (forall i :: 0 <= i < |t| - 1 && t[i].Lit? ==> t[i + 1].Put?)
    && (forall i :: 0 <= i < |t| && t[i].Put? ==> AlignFits(t[i].field, t[i].align))
  }

  /** Each field's placeholder character reads back as that field, with `|` exactly when it is aligned. */
  lemma PlaceholderOfField(f: Field, a: Align)
    requires AlignFits(f, a)
    ensures FieldChar(f) != '|'
    ensures Placeholder(FieldChar(f), a != Natural) == Some(Put(f, a))
  {
  }

  lemma AfterPercentReadsPlaceholder(lit: string, f: Field, a: Align, more: string)
    requires AlignFits(f, a)
    ensures AfterPercent(lit, PlaceholderText(f, a)[1..] + more) == Prepend(Lits(lit) + [Put(f, a)], CompileFormat(more))
  {
    PlaceholderOfField(f, a);
    var after := PlaceholderText(f, a)[1..] + more;
    if a == Natural {
      assert after == [FieldChar(f)] + more;
      assert after[0] == FieldChar(f) && after[1..] == more;
    } else {
      assert after == ['|', FieldChar(f)] + more;
      assert after[0] == '|' && after[1..] == [FieldChar(f)] + more;
      assert after[1..][0] == FieldChar(f) && after[1..][1..] == more;
    }
  }

  /** A placeholder after literal text without `%` compiles to that text and its field. */
  lemma PlaceholderAfterText(lit: string, f: Field, a: Align, more: string)
    requires '%' !in lit && AlignFits(f, a)
    ensures CompileFormat(lit + PlaceholderText(f, a) + more) == Prepend(Lits(lit) + [Put(f, a)], CompileFormat(more))
  {
    var ph := PlaceholderText(f, a);
    assert ph == ['%'] + ph[1..];
    assert lit + ph + more == lit + ['%'] + (ph[1..] + more);
    FirstPercent(lit, ph[1..] + more);
    AfterPercentReadsPlaceholder(lit, f, a, more);
  }

  lemma CanonicalTail(t: Template, k: nat)
    requires Canonical(t) && k <= |t|
    ensures Canonical(t[k..])
  {
    var u := t[k..];
    forall i | 0 <= i < |u| - 1 && u[i].Lit?
      ensures u[i + 1].Put?
    {
      assert u[i] == t[i + k] && u[i + 1] == t[i + k + 1];
    }
  }

  /** Literal text followed by a field, then the rest of a template that round-trips. */
  lemma LitPutRoundTrip(lit: string, f: Field, a: Align, u: Template)
    requires lit != "" && '%' !in lit && AlignFits(f, a)
    requires CompileFormat(Source(u)) == Ok(u)
    ensures CompileFormat(Source([Lit(lit), Put(f, a)] + u)) == Ok([Lit(lit), Put(f, a)] + u)
  {
    var put := [Put(f, a)] + u;
    var t := [Lit(lit)] + put;
    assert [Lit(lit), Put(f, a)] + u == t;
    SourceCons(Put(f, a), u);
    SourceCons(Lit(lit), put);
    StringAssoc(lit, PlaceholderText(f, a), Source(u));
    PlaceholderAfterText(lit, f, a, Source(u));
    assert Lits(lit) + [Put(f, a)] + u == t;
  }

  lemma SourceCons(seg: Segment, u: Template)
    ensures Source([seg] + u) == SegmentSource(seg) + Source(u)
  {
    assert ([seg] + u)[1..] == u;
  }

  /** A field, then the rest of a template that round-trips. */
  lemma PutRoundTrip(f: Field, a: Align, u: Template)
    requires AlignFits(f, a)
    requires CompileFormat(Source(u)) == Ok(u)
    ensures CompileFormat(Source([Put(f, a)] + u)) == Ok([Put(f, a)] + u)
  {
    var t := [Put(f, a)] + u;
    assert t[1..] == u;
    assert Source(t) == "" + PlaceholderText(f, a) + Source(u);
    PlaceholderAfterText("", f, a, Source(u));
    assert [] + [Put(f, a)] + u == t;
  }

  /** A canonical template survives being written out and compiled again. */
  lemma {:induction false} SourceRoundTrip(t: Template)
    requires Canonical(t)
    ensures CompileFormat(Source(t)) == Ok(t)
    decreases |t|
  {
    if t == [] {
    } else if t[0].Put? {
      CanonicalTail(t, 1);
      SourceRoundTrip(t[1..]);
      assert AlignFits(t[0].field, t[0].align);
      PutRoundTrip(t[0].field, t[0].align, t[1..]);
      assert [Put(t[0].field, t[0].align)] + t[1..] == t;
    } else if |t| == 1 {
      assert '%' !in t[0].text && t[0].text != "";
      assert t[1..] == [] && t == [t[0]];
      assert Source(t) == t[0].text + "";
      assert t[0].text + "" == t[0].text;
    } else {
      CanonicalTail(t, 2);
      SourceRoundTrip(t[2..]);
      assert t[0].text != "" && '%' !in t[0].text;
      assert t[1].Put? && AlignFits(t[1].field, t[1].align);
      LitPutRoundTrip(t[0].text, t[1].field, t[1].align, t[2..]);
      assert [Lit(t[0].text), Put(t[1].field, t[1].align)] + t[2..] == t;
    }
  }

  lemma CanonicalConsPut(seg: Segment, u: Template)
    requires seg.Put? && AlignFits(seg.field, seg.align) && Canonical(u)
    ensures Canonical([seg] + u)
  {
    var t := [seg] + u;
    forall i | 1 <= i < |t|
      ensures t[i] == u[i - 1]
    {
    }
  }

  lemma CanonicalConsLit(lit: string, u: Template)
    requires lit != "" && '%' !in lit && u != [] && u[0].Put? && Canonical(u)
    ensures Canonical([Lit(lit)] + u)
  {
    var t := [Lit(lit)] + u;
    forall i | 1 <= i < |t|
      ensures t[i] == u[i - 1]
    {
    }
  }

  lemma LitIsCanonical(lit: string)
    requires lit != "" && '%' !in lit
    ensures Canonical([Lit(lit)])
  {
  }

  /** Literal text without `%`, then a field, then a canonical template, is canonical. */
  lemma CanonicalPrepend(lit: string, seg: Segment, u: Template)
    requires '%' !in lit && seg.Put? && AlignFits(seg.field, seg.align) && Canonical(u)
    ensures Canonical(Lits(lit) + [seg] + u)
  {
    CanonicalConsPut(seg, u);
    if lit == "" {
      assert Lits(lit) + [seg] + u == [seg] + u;
    } else {
      CanonicalConsLit(lit, [seg] + u);
      assert Lits(lit) + [seg] + u == [Lit(lit)] + ([seg] + u);
    }
  }

  /** The segment a placeholder character stands for is a field with an alignment it allows. */
  lemma PlaceholderFits(c: char, align: bool)
    requires Placeholder(c, align).Some?
    ensures Placeholder(c, align).value.Put?
    ensures AlignFits(Placeholder(c, align).value.field, Placeholder(c, align).value.align)
  {
  }

  /** Every template `search_format` stores is canonical. */
  lemma {:induction false} CompiledIsCanonical(s: string)
    requires CompileFormat(s).Ok?
    ensures Canonical(CompileFormat(s).value)
    decreases |s|, 1
  {
    if s != "" {
      var index := Find(s, '%');
      if index < 0 {
        LitIsCanonical(s);
      } else {
        CompileAtPercent(s, index);
        AfterPercentCanonical(s[..index], s[index + 1..]);
      }
    }
  }

  /** What the compiler stores from a `%` on: literal text without `%`, a field, then a canonical rest. */
  lemma {:induction false} AfterPercentCanonical(lit: string, after: string)
    requires '%' !in lit && AfterPercent(lit, after).Ok?
    ensures Canonical(AfterPercent(lit, after).value)
    decreases |after|, 0
  {
    var align := after[0] == '|';
    var rest := if align then after[1..] else after;
    PlaceholderFits(rest[0], align);
    CompiledIsCanonical(rest[1..]);
    CanonicalPrepend(lit, Placeholder(rest[0], align).value, CompileFormat(rest[1..]).value);
  }

  /** Whatever a format argument compiles to, written back out, compiles to the same template. */
  lemma CompiledRoundTrip(s: string)
    requires CompileFormat(s).Ok?
    ensures CompileFormat(Source(CompileFormat(s).value)) == CompileFormat(s)
  {
    CompiledIsCanonical(s);
    SourceRoundTrip(CompileFormat(s).value);
  }

  /** `|` changes nothing for the fields without a column: `p`, `d`, `s`, `A`, `u`. */
  lemma AlignIgnoredForUnpaddedFields(c: char)
    requires c in "pdsAu"
    ensures Placeholder(c, true) == Placeholder(c, false)
  {
  }

  /** Text with no `%` is copied verbatim. */
  lemma NoPlaceholderVerbatim(s: string)
    requires '%' !in s
    ensures CompileFormat(s) == Ok(Lits(s))
    ensures Source(Lits(s)) == s
  {
    if s != "" {
      assert Source([Lit(s)]) == s + "";
    }
  }

  /** A `%` or `%|` closing the argument is refused. */
  lemma TruncatedPlaceholders(lit: string)
    requires '%' !in lit
    ensures CompileFormat(lit + "%") == Err(TruncatedPlaceholder)
    ensures CompileFormat(lit + "%|") == Err(TruncatedPlaceholder)
  {
    assert lit + "%" == lit + ['%'] + "";
    FirstPercent(lit, "");
    assert lit + "%|" == lit + ['%'] + "|";
    FirstPercent(lit, "|");
    assert "|"[1..] == "";
  }

  /** A field character outside the placeholder table is refused. */
  lemma UnknownFieldCharacter(lit: string, c: char, more: string)
    requires '%' !in lit && c !in "|nvapdsAu"
    ensures CompileFormat(lit + ['%', c] + more) == Err(UnknownFormatChar(c))
  {
    var after := [c] + more;
    assert lit + ['%', c] + more == lit + ['%'] + after;
    FirstPercent(lit, after);
    NotAPlaceholder(c, false);
    assert after[0] == c && after[1..] == more;
  }

  /** The same after `|`. */
  lemma UnknownAlignedFieldCharacter(lit: string, c: char, more: string)
    requires '%' !in lit && c !in "nvapdsAu"
    ensures CompileFormat(lit + ['%', '|', c] + more) == Err(UnknownFormatChar(c))
  {
    var rest := [c] + more;
    var after := ['|'] + rest;
    assert lit + ['%', '|', c] + more == lit + ['%'] + after;
    FirstPercent(lit, after);
    NotAPlaceholder(c, true);
    assert after[0] == '|' && after[1..] == rest && rest[0] == c;
  }

  // A separate step so that the callers' proofs stay cheap for the solver.
  lemma NotAPlaceholder(c: char, align: bool)
    requires c !in "nvapdsAu"
    ensures Placeholder(c, align) == None
  {
  }

  /** The columns both built-in formats start with: the three flags, the architecture and the name. */
  const ListingHead: Template := [
    Put(State, Natural), Put(Automatic, Natural), Put(Upgrade, Natural),
    Lit(" "), Put(Arch, ArchColumn), Lit(" "), Put(Name, NameColumn)]

  /** `ListingHead` without its name column. */
  const FlagColumns: Template := [
    Put(State, Natural), Put(Automatic, Natural), Put(Upgrade, Natural),
    Lit(" "), Put(Arch, ArchColumn), Lit(" ")]

  const DefaultTail: Template := [Lit(" "), Put(Version, VersionColumn), Lit(" - "), Put(Summary, Natural)]

  const VirtualTail: Template := [Lit(" -> "), Put(PackageName, Natural), Lit(" "), Put(Version, Natural)]

  /** The built-in formats for real and for virtual names. */
  const DefaultFormat: Template := ListingHead + DefaultTail

  const DefaultVirtualFormat: Template := ListingHead + VirtualTail

  lemma {:induction false} SourceAppend(t: Template, u: Template)
    ensures Source(t + u) == Source(t) + Source(u)
  {
    if t == [] {
      assert t + u == u;
    } else {
      assert (t + u)[0] == t[0] && (t + u)[1..] == t[1..] + u;
      SourceAppend(t[1..], u);
    }
  }

  lemma ListingHeadSource()
    ensures Source(ListingHead) == "%s%A%u %|a %|n"
  {
    assert "%s" + ("%A" + ("%u" + (" " + ("%|a" + (" " + ("%|n" + "")))))) == "%s%A%u %|a %|n";
  }

  lemma DefaultTailSource()
    ensures Source(DefaultTail) == " %|v - %d"
  {
    assert " " + ("%|v" + (" - " + ("%d" + ""))) == " %|v - %d";
  }

  lemma VirtualTailSource()
    ensures Source(VirtualTail) == " -> %p %v"
  {
    assert " -> " + ("%p" + (" " + ("%v" + ""))) == " -> %p %v";
  }

  /** The built-in formats are the ones the format language writes as `%s%A%u %|a %|n %|v - %d` and `%s%A%u %|a %|n -> %p %v`. */
  lemma DefaultFormatsAreExpressible()
    ensures CompileFormat("%s%A%u %|a %|n %|v - %d") == Ok(DefaultFormat)
    ensures CompileFormat("%s%A%u %|a %|n -> %p %v") == Ok(DefaultVirtualFormat)
  {
    DefaultFormatExpressible();
    DefaultVirtualFormatExpressible();
  }

  lemma DefaultFormatExpressible()
    ensures CompileFormat("%s%A%u %|a %|n %|v - %d") == Ok(DefaultFormat)
  {
    ListingHeadSource();
    DefaultTailSource();
    SourceAppend(ListingHead, DefaultTail);
    assert "%s%A%u %|a %|n" + " %|v - %d" == "%s%A%u %|a %|n %|v - %d";
    DefaultFormatCanonical();
    SourceRoundTrip(DefaultFormat);
  }

  lemma DefaultVirtualFormatExpressible()
    ensures CompileFormat("%s%A%u %|a %|n -> %p %v") == Ok(DefaultVirtualFormat)
  {
    ListingHeadSource();
    VirtualTailSource();
    SourceAppend(ListingHead, VirtualTail);
    assert "%s%A%u %|a %|n" + " -> %p %v" == "%s%A%u %|a %|n -> %p %v";
    DefaultVirtualFormatCanonical();
    SourceRoundTrip(DefaultVirtualFormat);
  }

  lemma DefaultFormatCanonical()
    ensures Canonical(DefaultFormat)
  {
  }

  lemma DefaultVirtualFormatCanonical()
    ensures Canonical(DefaultVirtualFormat)
  {
  }

  // ---------------------------------------------------------------------------
  // Rendering

  /** The values of one result line, as the strings the format substitutes. */
  datatype Values = Values(
    state: string, automatic: string, upgrade: string, arch: string,
    name: string, packageName: string, version: string, summary: string)

  function ValueOf(vals: Values, f: Field): string {
    match f
    case Name => vals.name
    case Version => vals.version
    case Arch => vals.arch
    case PackageName => vals.packageName
    case Summary => vals.summary
    case State => vals.state
    case Automatic => vals.automatic
    case Upgrade => vals.upgrade
  }

  function WidthOf(a: Align, nameLen: nat, verLen: nat): nat {
    match a
    case Natural => 0
    case NameColumn => nameLen
    case VersionColumn => verLen
    case ArchColumn => ArchWidth
  }

  /** `%-Ns`: the text left-justified in a field of `w` characters; longer text is not cut. */
  function Pad(s: string, w: nat): (r: string)
    ensures |r| == if |s| < w then w else |s|
    ensures r[..|s|] == s
    ensures r[|s|..] == seq(|r| - |s|, _ => ' ')
  {
    if |s| < w then s + seq(w - |s|, _ => ' ') else s
  }

  /** One result line: literals verbatim, each field padded to its column. */
  function Render(t: Template, vals: Values, nameLen: nat, verLen: nat): string {
    if t == [] then ""
    else
      match t[0]
      case Lit(s) => s + Render(t[1..], vals, nameLen, verLen)
      case Put(f, a) => Pad(ValueOf(vals, f), WidthOf(a, nameLen, verLen)) + Render(t[1..], vals, nameLen, verLen)
  }

  /** The text one segment contributes to a line. */
  function SegmentText(seg: Segment, vals: Values, nameLen: nat, verLen: nat): string {
    match seg
    case Lit(s) => s
    case Put(f, a) => Pad(ValueOf(vals, f), WidthOf(a, nameLen, verLen))
  }

  lemma RenderStep(t: Template, vals: Values, nameLen: nat, verLen: nat)
    requires t != []
    ensures Render(t, vals, nameLen, verLen) == SegmentText(t[0], vals, nameLen, verLen) + Render(t[1..], vals, nameLen, verLen)
  {
  }

  lemma {:induction false} RenderAppend(t: Template, u: Template, vals: Values, nameLen: nat, verLen: nat)
    ensures Render(t + u, vals, nameLen, verLen) == Render(t, vals, nameLen, verLen) + Render(u, vals, nameLen, verLen)
  {
    if t == [] {
      assert t + u == u;
    } else {
      var head := SegmentText(t[0], vals, nameLen, verLen);
      assert Render(t + u, vals, nameLen, verLen) == head + Render(t[1..] + u, vals, nameLen, verLen) by {
        var tu := t + u;
        assert tu[0] == t[0] && tu[1..] == t[1..] + u;
        RenderStep(tu, vals, nameLen, verLen);
      }
      RenderAppend(t[1..], u, vals, nameLen, verLen);
      RenderStep(t, vals, nameLen, verLen);
      StringAssoc(head, Render(t[1..], vals, nameLen, verLen), Render(u, vals, nameLen, verLen));
    }
  }

  // A separate step so that the callers' proofs stay cheap for the solver.
  lemma StringAssoc(a: string, b: string, c: string)
    ensures a + (b + c) == a + b + c
  {
  }

  /** A segment whose rendering has the same width for every result line of a listing. */
  predicate FixedWidth(seg: Segment, vals: Values, nameLen: nat, verLen: nat) {
    match seg
    case Lit(_) => true
    case Put(f, a) =>
      if a == Natural then |ValueOf(vals, f)| == 1 else |ValueOf(vals, f)| <= WidthOf(a, nameLen, verLen)
  }

  function FixedLength(t: Template, nameLen: nat, verLen: nat): nat {
    if t == [] then 0
    else
      match t[0]
      case Lit(s) => |s| + FixedLength(t[1..], nameLen, verLen)
      case Put(f, a) => (if a == Natural then 1 else WidthOf(a, nameLen, verLen)) + FixedLength(t[1..], nameLen, verLen)
  }

  /**
   * Column alignment: when every segment of a prefix has a fixed width, the
   * prefix renders to the same length whatever the values are.
   */
  lemma {:induction false} FixedPrefixLength(t: Template, vals: Values, nameLen: nat, verLen: nat)
    requires forall i :: 0 <= i < |t| ==> FixedWidth(t[i], vals, nameLen, verLen)
    ensures |Render(t, vals, nameLen, verLen)| == FixedLength(t, nameLen, verLen)
  {
    if t != [] {
      assert forall i :: 0 <= i < |t[1..]| ==> t[1..][i] == t[i + 1];
      FixedPrefixLength(t[1..], vals, nameLen, verLen);
      assert FixedWidth(t[0], vals, nameLen, verLen);
      match t[0]
      case Lit(s) =>
      case Put(f, a) =>
        var w := WidthOf(a, nameLen, verLen);
        assert |Pad(ValueOf(vals, f), w)| == if a == Natural then 1 else w;
    }
  }

  /**
   * The flag and architecture columns of the built-in formats take eleven
   * characters for one-character flags and an architecture of at most six
   * characters; `%-6s` does not cut a longer one.
   */
  lemma FlagColumnsWidth(vals: Values, nameLen: nat, verLen: nat)
    requires |vals.state| == 1 && |vals.automatic| == 1 && |vals.upgrade| == 1 && |vals.arch| <= ArchWidth
    ensures |Render(FlagColumns, vals, nameLen, verLen)| == 11
  {
    var h := FlagColumns;
    assert h[6..] == [];
    assert h[5..][1..] == h[6..];
    assert |Render(h[5..], vals, nameLen, verLen)| == 1;
    assert h[4..][1..] == h[5..];
    assert |Render(h[4..], vals, nameLen, verLen)| == 7;
    assert h[3..][1..] == h[4..];
    assert |Render(h[3..], vals, nameLen, verLen)| == 8;
    assert h[2..][1..] == h[3..];
    assert |Render(h[2..], vals, nameLen, verLen)| == 9;
    assert h[1..][1..] == h[2..];
    assert |Render(h[1..], vals, nameLen, verLen)| == 10;
    assert h[0..] == h;
  }

  lemma ListingHeadSplit()
    ensures ListingHead == FlagColumns + [Put(Name, NameColumn)]
  {
  }

  // A separate step so that the callers' proofs stay cheap for the solver.
  lemma TemplateAssoc(a: Template, b: Template, c: Template)
    ensures (a + b) + c == a + (b + c)
  {
  }

  lemma RenderPut(f: Field, a: Align, t: Template, vals: Values, nameLen: nat, verLen: nat)
    ensures Render([Put(f, a)] + t, vals, nameLen, verLen) == Pad(ValueOf(vals, f), WidthOf(a, nameLen, verLen)) + Render(t, vals, nameLen, verLen)
  {
    assert ([Put(f, a)] + t)[1..] == t;
  }

  /** Where the middle of a three-part string sits. */
  lemma MiddleOf(a: string, b: string, c: string)
    ensures (a + (b + c))[|a|..|a| + |b|] == b
    ensures (a + (b + c))[|a| + |b|..] == c
  {
    var s := a + (b + c);
    assert s[|a|..] == b + c;
    assert s[|a|..|a| + |b|] == (b + c)[..|b|];
  }

  /**
   * A line of either built-in format has the padded name at column 11 and the
   * rest of the format after it, for one-character flags, an architecture of at
   * most six characters and a name no longer than `nameLen`.
   */
  lemma {:induction false} HeadColumns(tail: Template, vals: Values, nameLen: nat, verLen: nat)
    requires |vals.state| == 1 && |vals.automatic| == 1 && |vals.upgrade| == 1 && |vals.arch| <= ArchWidth
    requires |vals.name| <= nameLen
    ensures var line := Render(ListingHead + tail, vals, nameLen, verLen);
      && |line| >= 11 + nameLen
      && line[11..11 + nameLen] == Pad(vals.name, nameLen)
      && line[11 + nameLen..] == Render(tail, vals, nameLen, verLen)
  {
    ListingHeadSplit();
    TemplateAssoc(FlagColumns, [Put(Name, NameColumn)], tail);
    var named := [Put(Name, NameColumn)] + tail;
    RenderAppend(FlagColumns, named, vals, nameLen, verLen);
    FlagColumnsWidth(vals, nameLen, verLen);
    RenderPut(Name, NameColumn, tail, vals, nameLen, verLen);
    MiddleOf(Render(FlagColumns, vals, nameLen, verLen), Pad(vals.name, nameLen), Render(tail, vals, nameLen, verLen));
  }

  // ---------------------------------------------------------------------------
  // The option handler

  /** The two configuration keys a format option writes. */
  datatype Target = FormatKey | VirtualFormatKey

  /** The configuration and the arguments still to be read by the option loop. */
  class Options {
    var config: map<Target, Template>
    var argv: seq<string>

    constructor(args: seq<string>)
      ensures config == map[] && argv == args
    {
      config := map[];
      argv := args;
    }

    /**
     * `search_format(target, config, argv)`: compiles the next argument into
     * `config[target]` and consumes it; on an error nothing changes.
     */
    method SearchFormat(target: Target) returns (r: Outcome<FormatError>)
      modifies this
      ensures old(argv) == [] ==> r == Fail(MissingFormatArgument)
      ensures old(argv) != [] && CompileFormat(old(argv)[0]).Err? ==> r == Fail(CompileFormat(old(argv)[0]).error)
      ensures r.Fail? ==> config == old(config) && argv == old(argv)
      ensures r.Pass? ==> old(argv) != [] && CompileFormat(old(argv)[0]).Ok?
      ensures r.Pass? ==> config == old(config)[target := CompileFormat(old(argv)[0]).value] && argv == old(argv)[1..]
    {
      if argv == [] {
        return Fail(MissingFormatArgument);
      }
      ghost var arg0 := argv[0];
      var fmtarg := argv[0];
      var format: Template := [];
      PrependNothing(CompileFormat(fmtarg));
      while fmtarg != ""
        invariant config == old(config) && argv == old(argv)
        invariant CompileFormat(arg0) == Prepend(format, CompileFormat(fmtarg))
        decreases |fmtarg|
      {
        ghost var format0 := format;
        var index := Find(fmtarg, '%');
        if index < 0 {
          format := format + [Lit(fmtarg)];
          break;
        }
        ghost var lit, after := fmtarg[..index], fmtarg[index + 1..];
        CompileAtPercent(fmtarg, index);
        AfterPercentSteps(lit, after);
        format, fmtarg := format + Lits(fmtarg[..index]), fmtarg[index + 1..];
        if fmtarg == "" {
          return Fail(TruncatedPlaceholder);
        }
        var align := false;
        if fmtarg[0] == '|' {
          align := true;
          fmtarg := fmtarg[1..];
        }
        if fmtarg == "" {
          return Fail(TruncatedPlaceholder);
        }
        var fmtchar;
        fmtchar, fmtarg := fmtarg[0], fmtarg[1..];
        match Placeholder(fmtchar, align)
        case None =>
          return Fail(UnknownFormatChar(fmtchar));
        case Some(seg) =>
          PrependTwice(format0, Lits(lit) + [seg], CompileFormat(fmtarg));
          TemplateAssoc(format0, Lits(lit), [seg]);
          format := format + [seg];
      }
      assert format + [] == format;
      assert CompileFormat(arg0) == Ok(format);
      config := config[target := format];
      argv := argv[1..];
      return Pass;
    }
  }
}
