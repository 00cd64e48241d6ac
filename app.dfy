/** The web front end's two pieces of logic: the page-selection parser and
    the registry of document types offered in the upload form. */
module App {
  import opened Wrappers
  import opened Text

  // ---------------------------------------------------------------------------
  // parse_pages_input

  /** What `parse_pages_input` returns: the empty string for a missing or
      empty input, otherwise a list of page numbers. */
  datatype Pages = Blank | PageList(pages: seq<int>)

  /** `range(a, b + 1)` as a list. */
  function Range(a: int, b: int): (r: seq<int>)
    ensures |r| == if a <= b then b - a + 1 else 0
    ensures forall i | 0 <= i < |r| :: r[i] == a + i
    decreases b - a
  {
    if a > b then [] else [a] + Range(a + 1, b)
  }

  /** The pages one comma-separated part contributes: `a-b` an inclusive
      range, anything else a single `int`; ValueError where `int` fails or
      the part does not split into exactly two ends. */
  function PartPages(part: string): Result<seq<int>>
  {
    if Contains(part, "-") then
      var ends := Split(part, "-");
      if |ends| != 2 then Err(ValueError)
      else match (ParseInt(ends[0]), ParseInt(ends[1]))
        case (Some(a), Some(b)) => Ok(Range(a, b))
        case _ => Err(ValueError)
    else
      match ParseInt(part)
      case Some(n) => Ok([n])
      case None => Err(ValueError)
  }

  /** The parts processed left to right; the first failing part raises. */
  function PagesOf(parts: seq<string>): Result<seq<int>>
  {
    if parts == [] then Ok([])
    else match PartPages(parts[0])
      case Err(e) => Err(e)
      case Ok(first) =>
        match PagesOf(parts[1..])
        case Err(e) => Err(e)
        case Ok(rest) => Ok(first + rest)
  }

  /** `pages` followed by the outcome of the remaining parts. */
  function After(pages: seq<int>, r: Result<seq<int>>): Result<seq<int>>
  {
    match r
    case Ok(rest) => Ok(pages + rest)
    case Err(e) => Err(e)
  }

  /** The value `parse_pages_input` computes. */
  function ParsePages(input: Option<string>): Result<Pages>
  {
    if input.None? || input.value == "" then Ok(Blank)
    else match PagesOf(Split(input.value, ","))
      case Ok(ps) => Ok(PageList(ps))
      case Err(e) => Err(e)
  }

  /** `parse_pages_input`, building the list part by part. */
  method ParsePagesInput(input: Option<string>) returns (r: Result<Pages>)
    ensures r == ParsePages(input)
  {
    if input.None? || input.value == "" {
      return Ok(Blank);
    }
    var parts := Split(input.value, ",");
    var pages: seq<int> := [];
    var i := 0;
    assert parts[0..] == parts;
    AfterNothing(PagesOf(parts));
    while i < |parts|
      invariant 0 <= i <= |parts|
      invariant PagesOf(parts) == After(pages, PagesOf(parts[i..]))
    {
      var part := parts[i];
      var got: seq<int>;
      if Contains(part, "-") {
        var ends := Split(part, "-");
        if |ends| != 2 {
          PagesOfStep(parts, i);
          return Err(ValueError);
        }
        var start := ParseInt(ends[0]);
        var end := ParseInt(ends[1]);
        if start.None? || end.None? {
          PagesOfStep(parts, i);
          return Err(ValueError);
        }
        got := Range(start.value, end.value);
      } else {
        var n := ParseInt(part);
        if n.None? {
          PagesOfStep(parts, i);
          return Err(ValueError);
        }
        got := [n.value];
      }
      assert PartPages(part) == Ok(got);
      PagesOfStep(parts, i);
      AfterAssoc(pages, got, PagesOf(parts[i + 1..]));
      pages := pages + got;
      i := i + 1;
    }
    assert parts[i..] == [];
    assert pages + [] == pages;
    r := Ok(PageList(pages));
  }

  /** One part of the fold. */
  lemma PagesOfStep(parts: seq<string>, i: nat)
    requires i < |parts|
    ensures PagesOf(parts[i..]) ==
      match PartPages(parts[i])
      case Err(e) => Err(e)
      case Ok(first) => After(first, PagesOf(parts[i + 1..]))
  {
    assert parts[i..][1..] == parts[i + 1..];
  }

  lemma AfterNothing(r: Result<seq<int>>)
    ensures After([], r) == r
  {
    if r.Ok? {
      assert [] + r.value == r.value;
    }
  }

  lemma AfterAssoc(pages: seq<int>, first: seq<int>, r: Result<seq<int>>)
    ensures After(pages, After(first, r)) == After(pages + first, r)
  {
    if r.Ok? {
      assert pages + (first + r.value) == pages + first + r.value;
    }
  }

  /** Parts are independent: the pages of a concatenation are the pages of
      the first parts followed by those of the others, duplicates and order
      kept. */
  lemma {:induction false} PagesOfConcat(xs: seq<string>, ys: seq<string>)
    ensures PagesOf(xs + ys) ==
      match PagesOf(xs)
      case Err(e) => Err(e)
      case Ok(a) => After(a, PagesOf(ys))
  {
    if xs != [] {
      assert (xs + ys)[1..] == xs[1..] + ys;
      assert (xs + ys)[0] == xs[0];
      PagesOfConcat(xs[1..], ys);
      match PartPages(xs[0])
      case Err(_) =>
      case Ok(first) =>
        match PagesOf(xs[1..])
        case Err(_) =>
        case Ok(a) => AfterAssoc(first, a, PagesOf(ys));
    } else {
      assert xs + ys == ys;
      match PagesOf(ys)
      case Err(_) =>
      case Ok(b) => assert [] + b == b;
    }
  }

  /** The text `", ".join(str(p) for p in ps)` without the spaces. */
  function PagesText(ps: seq<nat>): string
  {
    Join(Shown(ps), ",")
  }

  function Shown(ps: seq<nat>): (r: seq<string>)
    ensures |r| == |ps| && forall i | 0 <= i < |ps| :: r[i] == Show(ps[i])
  {
    if ps == [] then [] else [Show(ps[0])] + Shown(ps[1..])
  }

  /** A non-negative page number reads back as itself and holds neither a
      comma nor a dash. */
  lemma PageNumber(n: nat)
    ensures PartPages(Show(n)) == Ok([n])
    ensures !Contains(Show(n), ",") && !Contains(Show(n), "-")
  {
    DigitsLack(Show(n), ',');
    DigitsLack(Show(n), '-');
    ParseShowBare(n);
  }

  lemma {:induction false} PagesOfShown(ps: seq<nat>)
    ensures PagesOf(Shown(ps)) == Ok(ps)
  {
    if ps != [] {
      var parts := Shown(ps);
      PageNumber(ps[0]);
      assert PartPages(parts[0]) == Ok([ps[0]]);
      assert parts[1..] == Shown(ps[1..]);
      PagesOfShown(ps[1..]);
      assert PagesOf(parts) == Ok([ps[0]] + ps[1..]);
      assert ps == [ps[0]] + ps[1..];
    }
  }

  /** Parsing reads back a non-empty list of page numbers written out with
      commas. */
  lemma ParsePagesText(ps: seq<nat>)
    requires ps != []
    ensures ParsePages(Some(PagesText(ps))) == Ok(PageList(ps))
  {
    forall k | 0 <= k < |Shown(ps)| ensures !Contains(Shown(ps)[k], ",") {
      PageNumber(ps[k]);
    }
    SplitJoin(Shown(ps), ",");
    PagesOfShown(ps);
    assert PagesText(ps) != "" by {
      assert |PagesText(ps)| >= |Show(ps[0])|;
    }
  }

  /** A part `a-b` gives `a, a+1, ..., b`, nothing when `a > b`. */
  lemma RangePart(a: nat, b: nat)
    ensures PartPages(Show(a) + "-" + Show(b)) == Ok(Range(a, b))
    ensures a > b ==> PartPages(Show(a) + "-" + Show(b)) == Ok([])
  {
    PageNumber(a);
    PageNumber(b);
    var xs := [Show(a), Show(b)];
    assert Join(xs, "-") == Show(a) + "-" + Show(b);
    SplitJoin(xs, "-");
    ParseShowBare(a);
    ParseShowBare(b);
  }

  /** A part that starts with '-', such as a negative number, raises
      ValueError. */
  lemma LeadingDashRejected(part: string)
    requires StartsWith(part, "-")
    ensures PartPages(part) == Err(ValueError)
  {
    assert OccursAt(part, "-", 0);
    FindIs(part, "-", 0);
    assert Split(part, "-")[0] == "";
    assert Strip("") == "";
  }

  // ---------------------------------------------------------------------------
  // add_document_type

  const DefaultTypes: seq<string> := ["inspection_form", "invoice", "report"]
  const Rejected := "Invalid or duplicate document type."

  function AddedMessage(t: string): string
  {
    "Document type '" + t + "' added successfully!"
  }

  predicate NoDuplicates(s: seq<string>)
  {
    forall i, j | 0 <= i < j < |s| :: s[i] != s[j]
  }

  /** The module-level `document_types` list and the JSON file it is saved
      to. */
  class DocumentTypes {
    var types: seq<string>
    /** What `document_types.json` holds. */
    var saved: seq<string>

    /** `load_document_types`: a missing file is first written with the
        three default types. */
    constructor Load(file: Option<seq<string>>)
      ensures file.None? ==> types == DefaultTypes && saved == DefaultTypes
      ensures file.Some? ==> types == file.value && saved == file.value
    {
      var content := if file.None? then DefaultTypes else file.value;
      saved := content;
      types := content;
    }

    /** `add_document_type`: an absent, empty or already-listed type is
        refused and nothing changes; otherwise it is appended once and the
        list is saved. */
    method AddDocumentType(newType: Option<string>) returns (message: string)
      modifies this
      ensures newType.None? || newType.value == "" || newType.value in old(types) ==>
        types == old(types) && saved == old(saved) && message == Rejected
      ensures newType.Some? && newType.value != "" && newType.value !in old(types) ==>
        types == old(types) + [newType.value] && saved == types && message == AddedMessage(newType.value)
      ensures NoDuplicates(old(types)) ==> NoDuplicates(types)
    {
      if newType.None? || newType.value == "" || newType.value in types {
        return Rejected;
      }
      types := types + [newType.value];
      saved := types;
      message := AddedMessage(newType.value);
    }
  }
}
