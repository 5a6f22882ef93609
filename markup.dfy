/** The static `use` helper: builds the markup of one `im-html` element from
    a property list and a children string. */
module Markup {
  import opened Wrappers

  /** The element name the helper always writes (the base class's static
      `tag`). */
  const Tag: string := "im-html"

  /** A property, as `Object.keys` lists it, with its value already turned
      into text. */
  datatype Prop = Prop(key: string, value: string)

  /** One attribute: `key="value"`, with nothing escaped. */
  function Attribute(p: Prop): string
  {
    p.key + ['=', '"'] + p.value + ['"']
  }

  /** The attributes separated by single spaces. */
  function Attributes(props: seq<Prop>): string
  {
    if |props| == 0 then ""
    else if |props| == 1 then Attribute(props[0])
    else Attribute(props[0]) + " " + Attributes(props[1..])
  }

  /** `<im-html ATTRS>CHILDREN</im-html>`; absent properties are an empty
      list, and absent children are written as the text "undefined". */
  function Use(props: Option<seq<Prop>>, children: Option<string>): (r: string)
    ensures |r| >= |Tag| + 2 + |Tag| + 4
    ensures r[..|Tag| + 2] == "<" + Tag + " "
    ensures r[|r| - (|Tag| + 3)..] == "</" + Tag + ">"
  {
    var ps := if props.Some? then props.value else [];
    var ch := if children.Some? then children.value else "undefined";
    "<" + Tag + " " + Attributes(ps) + ">" + ch + "</" + Tag + ">"
  }

  /** The text before the first `stop` and the text after it, if `stop`
      occurs. */
  function SplitAt(s: string, stop: char): (r: Option<(string, string)>)
    ensures r.Some? ==> s == r.value.0 + [stop] + r.value.1 && stop !in r.value.0
    ensures r.None? ==> stop !in s
  {
    if |s| == 0 then None
    else if s[0] == stop then Some(([], s[1..]))
    else match SplitAt(s[1..], stop)
      case None => None
      case Some((before, after)) =>
        assert s == [s[0]] + s[1..];
        Some(([s[0]] + before, after))
  }

  /** Reads one `key="value"` off the front of `s`; gives the property and
      the text after its closing quote. */
  function ReadAttribute(s: string): (r: Option<(Prop, string)>)
    ensures r.Some? ==> |r.value.1| < |s|
  {
    match SplitAt(s, '=')
    case None => None
    case Some((key, rest)) =>
      if |rest| == 0 || rest[0] != '"' then None
      else match SplitAt(rest[1..], '"')
        case None => None
        case Some((value, tail)) => Some((Prop(key, value), tail))
  }

  /** Reads attributes up to the `>` that closes the opening tag; gives the
      properties and the text after the `>`. */
  function ParseAttributes(s: string): Option<(seq<Prop>, string)>
    decreases |s|
  {
    if |s| == 0 then None
    else if s[0] == '>' then Some(([], s[1..]))
    else match ReadAttribute(s)
      case None => None
      case Some((p, tail)) =>
        if |tail| == 0 then None
        else if tail[0] == '>' then Some(([p], tail[1..]))
        else if tail[0] == ' ' then
          match ParseAttributes(tail[1..])
          case None => None
          case Some((more, after)) => Some(([p] + more, after))
        else None
  }

  /** Reads back the properties and children of markup produced by `Use`. */
  function ParseUse(r: string): Option<(seq<Prop>, string)>
  {
    var open := "<" + Tag + " ";
    var close := "</" + Tag + ">";
    if |r| < |open| + |close| || r[..|open|] != open || r[|r| - |close|..] != close then None
    else ParseAttributes(r[|open|..|r| - |close|])
  }

  /** Properties whose text can be read back: a key without `=` or `>`, a
      value without `"`. */
  predicate Readable(p: Prop)
  {
    '=' !in p.key && '>' !in p.key && '"' !in p.value
  }

  /** `SplitAt` finds the first occurrence of `stop`. */
  lemma {:induction false} SplitAtFirst(s: string, stop: char, before: string, after: string)
    requires s == before + [stop] + after && stop !in before
    ensures SplitAt(s, stop) == Some((before, after))
    decreases |before|
  {
    if |before| == 0 {
      assert s[0] == stop && s[1..] == after;
    } else {
      assert s[0] == before[0] && s[0] != stop;
      assert s[1..] == before[1..] + [stop] + after;
      SplitAtFirst(s[1..], stop, before[1..], after);
      assert before == [s[0]] + before[1..];
    }
  }

  /** `ReadAttribute` inverts `Attribute`, whatever follows it. */
  lemma ReadAttributeInverse(p: Prop, tail: string)
    requires Readable(p)
    ensures var s := Attribute(p) + tail;
            |s| > 0 && s[0] != '>' && ReadAttribute(s) == Some((p, tail))
  {
    var s := Attribute(p) + tail;
    var rest := ['"'] + p.value + ['"'] + tail;
    assert s == p.key + ['='] + rest;
    assert s[0] != '>' by {
      if |p.key| > 0 { assert s[0] == p.key[0]; } else { assert s[0] == '='; }
    }
    SplitAtFirst(s, '=', p.key, rest);
    assert rest[1..] == p.value + ['"'] + tail;
    SplitAtFirst(rest[1..], '"', p.value, tail);
  }

  lemma LastAttribute(p: Prop, after: string)
    requires Readable(p)
    ensures ParseAttributes(Attribute(p) + (['>'] + after)) == Some(([p], after))
  {
    ReadAttributeInverse(p, ['>'] + after);
  }

  lemma AttributeThenMore(p: Prop, more: string, ps: seq<Prop>, after: string)
    requires Readable(p)
    requires ParseAttributes(more) == Some((ps, after))
    ensures ParseAttributes(Attribute(p) + ([' '] + more)) == Some(([p] + ps, after))
  {
    ReadAttributeInverse(p, [' '] + more);
    assert ([' '] + more)[1..] == more;
  }

  /** The attributes of a list of two or more: the first, a space, the rest. */
  lemma AttributesUnfold(props: seq<Prop>, after: string)
    requires |props| >= 2
    ensures Attributes(props) + (['>'] + after)
            == Attribute(props[0]) + ([' '] + (Attributes(props[1..]) + (['>'] + after)))
  {
  }

  lemma {:induction false} ParseAttributesRoundTrip(props: seq<Prop>, after: string)
    requires forall i :: 0 <= i < |props| ==> Readable(props[i])
    ensures ParseAttributes(Attributes(props) + (['>'] + after)) == Some((props, after))
    decreases |props|
  {
    if |props| == 0 {
      assert Attributes(props) + (['>'] + after) == ['>'] + after;
    } else if |props| == 1 {
      LastAttribute(props[0], after);
      assert props == [props[0]];
    } else {
      var more := Attributes(props[1..]) + (['>'] + after);
      ParseAttributesRoundTrip(props[1..], after);
      AttributeThenMore(props[0], more, props[1..], after);
      AttributesUnfold(props, after);
      assert props == [props[0]] + props[1..];
    }
  }

  /** The markup `Use` builds gives back its properties and children. */
  lemma UseRoundTrip(props: seq<Prop>, children: string)
    requires forall i :: 0 <= i < |props| ==> Readable(props[i])
    ensures ParseUse(Use(Some(props), Some(children))) == Some((props, children))
  {
    var r := Use(Some(props), Some(children));
    var open := "<" + Tag + " ";
    var close := "</" + Tag + ">";
    assert r == open + (Attributes(props) + (['>'] + children)) + close;
    assert r[|open|..|r| - |close|] == Attributes(props) + (['>'] + children);
    ParseAttributesRoundTrip(props, children);
  }

  /** Absent properties build the same markup as an empty list, which leaves
      a space before the `>` of the opening tag. */
  lemma AbsentPropsAreEmpty(children: Option<string>)
    ensures Use(None, children) == Use(Some([]), children)
    ensures Use(None, Some("x")) == "<im-html >x</im-html>"
  {
  }

  /** Absent children are written as the text "undefined". */
  lemma AbsentChildrenReadUndefined(props: Option<seq<Prop>>)
    ensures Use(props, None) == Use(props, Some("undefined"))
  {
  }
}
