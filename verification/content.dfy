/** The text a declaration is embedded by (`EmbeddingManager._extract_content`):
    up to six labelled parts, in a fixed order, joined by " | ". A part is present
    only when the field it reads is truthy: a missing or empty docstring or return
    type, and an empty list, contribute nothing. */
module Content {
  import opened Wrappers
  import opened Strings
  import opened DeclNodes

  /** The labels of the parts, by position: `Labels[k]` heads the `k`-th of the
      six parts `_extract_content` may append. */
  const Labels: seq<string> := ["Description", "Parameters", "Returns", "Inherits from", "Calls", "Assigns"]

  /** A field's value: a string, or a list shown as `", ".join(...)`. */
  datatype Value = Single(s: string) | Many(xs: seq<string>)
  {
    function Shown(): string
    {
      match this
      case Single(s) => s
      case Many(xs) => Join(xs, ", ")
    }
  }

  /** Python truthiness of an optional string. */
  function Truthy(s: Option<string>): Option<Value>
  {
    if s.Some? && s.value != "" then Some(Single(s.value)) else None
  }

  /** Python truthiness of a list of strings. */
  function Listed(xs: seq<string>): Option<Value>
  {
    if |xs| > 0 then Some(Many(xs)) else None
  }

  /** The six field values, by position, each `None` when the field is falsy.
      Declarations are serialised with every key present, so `info.get(k)` is the
      field itself. */
  function Fields(d: NodeDict): (fs: seq<Option<Value>>)
    ensures |fs| == 6
  {
    [Truthy(d.header.docstring), Listed(d.header.arguments), Truthy(d.header.returnType),
     Listed(d.header.bases), Listed(d.calls), Listed(d.assignments)]
  }

  /** Which of the six fields are truthy. */
  function Truthiness(fs: seq<Option<Value>>): (t: seq<bool>)
    requires |fs| == 6
    ensures |t| == 6 && forall k :: 0 <= k < 6 ==> t[k] == fs[k].Some?
  {
    seq(6, k requires 0 <= k < 6 => fs[k].Some?)
  }

  /** The positions, counted from `offset`, of the `true` entries of `t`, in order:
      the conditional appends over the fields from position `offset` on. */
  function Positions(t: seq<bool>, offset: nat): (ks: seq<nat>)
    ensures forall i :: 0 <= i < |ks| ==> offset <= ks[i] < offset + |t| && t[ks[i] - offset]
  {
    if |t| == 0 then []
    else (if t[0] then [offset] else []) + Positions(t[1..], offset + 1)
  }

  /** `Positions` keeps the order of the fields. */
  lemma {:induction false} PositionsOrdered(t: seq<bool>, offset: nat)
    ensures forall i, j :: 0 <= i < j < |Positions(t, offset)| ==> Positions(t, offset)[i] < Positions(t, offset)[j]
  {
    if |t| > 0 {
      PositionsOrdered(t[1..], offset + 1);
      var ks := Positions(t, offset);
      var rest := Positions(t[1..], offset + 1);
      if t[0] {
        assert ks == [offset] + rest;
        forall i, j | 0 <= i < j < |ks|
          ensures ks[i] < ks[j]
        {
          assert ks[j] == rest[j - 1];
          if i > 0 {
            assert ks[i] == rest[i - 1];
          }
        }
      } else {
        assert ks == rest;
      }
    }
  }

  /** Every `true` entry is listed. */
  lemma {:induction false} PositionsHas(t: seq<bool>, offset: nat, k: nat)
    requires offset <= k < offset + |t| && t[k - offset]
    ensures k in Positions(t, offset)
  {
    if k > offset {
      assert t[1..][k - (offset + 1)] == t[k - offset];
      PositionsHas(t[1..], offset + 1, k);
    }
  }

  /** No `true` entry: no position. */
  lemma {:induction false} PositionsNone(t: seq<bool>, offset: nat)
    requires forall m :: 0 <= m < |t| ==> !t[m]
    ensures Positions(t, offset) == []
  {
    if |t| > 0 {
      PositionsNone(t[1..], offset + 1);
    }
  }

  /** Exactly one `true` entry: exactly one position. */
  lemma {:induction false} PositionsOneHot(t: seq<bool>, offset: nat, k: nat)
    requires k < |t| && forall m :: 0 <= m < |t| ==> (t[m] <==> m == k)
    ensures Positions(t, offset) == [offset + k]
  {
    var rest := Positions(t[1..], offset + 1);
    if k == 0 {
      PositionsNone(t[1..], offset + 1);
    } else {
      PositionsOneHot(t[1..], offset + 1, k - 1);
    }
  }

  /** The positions of the parts `content_parts` is built from: every truthy field
      and no other, in the fixed order. */
  function ContentParts(d: NodeDict): (ks: seq<nat>)
    ensures forall i, j :: 0 <= i < j < |ks| ==> ks[i] < ks[j]
    ensures forall i :: 0 <= i < |ks| ==> ks[i] < 6 && Fields(d)[ks[i]].Some?
    ensures forall k :: 0 <= k < 6 && Fields(d)[k].Some? ==> k in ks
  {
    var t := Truthiness(Fields(d));
    PositionsOrdered(t, 0);
    forall k | 0 <= k < 6 && t[k]
      ensures k in Positions(t, 0)
    {
      PositionsHas(t, 0, k);
    }
    Positions(t, 0)
  }

  /** `f"{label}: {value}"` for the part at position `k`. */
  function Render(d: NodeDict, k: nat): string
    requires k < 6 && Fields(d)[k].Some?
  {
    Labels[k] + ": " + Fields(d)[k].value.Shown()
  }

  function RenderAll(d: NodeDict, ks: seq<nat>): (r: seq<string>)
    requires forall i :: 0 <= i < |ks| ==> ks[i] < 6 && Fields(d)[ks[i]].Some?
    ensures |r| == |ks|
    ensures forall i :: 0 <= i < |ks| ==> r[i] == Render(d, ks[i])
  {
    if |ks| == 0 then [] else [Render(d, ks[0])] + RenderAll(d, ks[1..])
  }

  /** `_extract_content(info)` */
  function ExtractContent(d: NodeDict): string
  {
    Join(RenderAll(d, ContentParts(d)), " | ")
  }

  /** The content is empty exactly when no field is truthy; in particular every
      declaration with a docstring, an argument, a base, a call or an assignment
      has something to embed. */
  lemma ContentEmptyIff(d: NodeDict)
    ensures ExtractContent(d) == "" <==> forall k :: 0 <= k < 6 ==> Fields(d)[k].None?
  {
    var ks := ContentParts(d);
    var rendered := RenderAll(d, ks);
    forall i | 0 <= i < |rendered|
      ensures rendered[i] != ""
    {
      assert |rendered[i]| >= |": "|;
    }
    JoinEmptyIff(rendered, " | ");
    if |ks| > 0 {
      assert Fields(d)[ks[0]].Some?;
    }
  }

  /** With a single truthy field, the content is that one part alone. */
  lemma SinglePart(d: NodeDict, k: nat)
    requires k < 6 && Fields(d)[k].Some?
    requires forall m :: 0 <= m < 6 && m != k ==> Fields(d)[m].None?
    ensures ExtractContent(d) == Labels[k] + ": " + Fields(d)[k].value.Shown()
  {
    var ks := ContentParts(d);
    PositionsOneHot(Truthiness(Fields(d)), 0, k);
    assert RenderAll(d, ks) == [Render(d, k)];
  }
}
