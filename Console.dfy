/**
 * formatArgs of the snippet sandbox (sandbox-worker.ts:9-21): how the
 * arguments of one console call become one line of the transcript.
 *
 * JSON.stringify and String are library code of the JavaScript runtime;
 * they are the two functions of a `Host`, and everything formatArgs itself
 * decides (which of them an argument goes through, the fallback text when
 * stringify throws, the single-space separator) is modelled exactly. Either
 * conversion may throw; only stringify's exception is caught, so a String
 * conversion that throws makes the whole call throw.
 */
module Console {

  import opened Wrappers

  /** What `typeof` tells apart; null and arrays are kept apart from plain objects. */
  datatype Kind =
    | Undefined | Null | Boolean | Number | BigInt | Str | Symbol | Function
    | ArrayObject | PlainObject

  /** A JavaScript value: its kind and which value of that kind it is. */
  datatype Value = Value(kind: Kind, identity: nat)

  /** The `typeof` operator (section 13.5.3 of ECMA-262). */
  function TypeOf(k: Kind): string {
    match k
    case Undefined => "undefined"
    case Null => "object"
    case Boolean => "boolean"
    case Number => "number"
    case BigInt => "bigint"
    case Str => "string"
    case Symbol => "symbol"
    case Function => "function"
    case ArrayObject => "object"
    case PlainObject => "object"
  }

  /** What `JSON.stringify(arg, null, 2)` does: text, `undefined`, or an exception. */
  datatype Serialized = Json(text: string) | NoJson | Throws

  /**
   * What `String(v)` does: a string, or an exception (a function whose own
   * `toString` throws, an object without a prototype).
   */
  datatype Converted = Text(text: string) | Raises

  /** The runtime's JSON.stringify (indent 2) and String conversions. */
  datatype Host = Host(stringify: Value -> Serialized, toText: Value -> Converted)

  /**
   * One argument. Values whose `typeof` is "object" go through stringify;
   * when it throws the argument reads "[unserializable]", and when it gives
   * `undefined` the join writes nothing for it. Other values go through
   * String, whose exception is not caught: `None`.
   */
  function Render(h: Host, v: Value): (r: Option<string>)
    ensures r.None? <==> TypeOf(v.kind) != "object" && h.toText(v).Raises?
  {
    if TypeOf(v.kind) == "object" then
      match h.stringify(v)
      case Json(t) => Some(t)
      case NoJson => Some("")
      case Throws => Some("[unserializable]")
    else
      match h.toText(v)
      case Text(t) => Some(t)
      case Raises => None
  }

  /** No argument's conversion throws. */
  predicate Renders(h: Host, args: seq<Value>) {
    forall i :: 0 <= i < |args| ==> Render(h, args[i]).Some?
  }

  /** `args.map(...)`: one rendering per argument, in order. */
  function RenderAll(h: Host, args: seq<Value>): seq<string>
    requires Renders(h, args)
  {
    seq(|args|, i requires 0 <= i < |args| => Render(h, args[i]).value)
  }

  /** The summed lengths of the parts. */
  function TotalLength(parts: seq<string>): nat {
    if parts == [] then 0 else |parts[0]| + TotalLength(parts[1..])
  }

  /** Where the `i`-th part begins once the parts are joined with single spaces. */
  function Offset(parts: seq<string>, i: nat): nat
    requires i < |parts|
  {
    if i == 0 then 0 else |parts[0]| + 1 + Offset(parts[1..], i - 1)
  }

  /**
   * Array.prototype.join(" "): nothing for no parts, otherwise every part
   * with one space between neighbours.
   */
  function Join(parts: seq<string>): (r: string)
    ensures |parts| == 0 ==> r == ""
    ensures |parts| > 0 ==> |r| == TotalLength(parts) + |parts| - 1
  {
    if |parts| == 0 then ""
    else if |parts| == 1 then parts[0]
    else parts[0] + " " + Join(parts[1..])
  }

  /**
   * formatArgs: each argument rendered, with one space between neighbours,
   * or `None` when one of the conversions throws. `FormatArgsIsJoin` proves
   * it equal to joining the renderings.
   */
  function FormatArgs(h: Host, args: seq<Value>): (r: Option<string>)
    ensures r.Some? <==> Renders(h, args)
    ensures |args| == 0 ==> r == Some("")
    ensures |args| == 1 ==> r == Render(h, args[0])
  {
    if |args| == 0 then Some("")
    else
      var rest := FormatArgs(h, args[1..]);
      assert Renders(h, args) <==> Render(h, args[0]).Some? && Renders(h, args[1..]) by {
        if Render(h, args[0]).Some? && Renders(h, args[1..]) {
          forall i | 0 <= i < |args| ensures Render(h, args[i]).Some? {
            if i > 0 {
              assert args[i] == args[1..][i - 1];
            }
          }
        }
      }
      match Render(h, args[0])
      case None => None
      case Some(first) =>
        if |args| == 1 then Some(first)
        else
          match rest
          case None => None
          case Some(line) => Some(first + " " + line)
  }

  /** `args.map(render).join(" ")`, the way the handler writes it. */
  lemma {:induction false} FormatArgsIsJoin(h: Host, args: seq<Value>)
    requires Renders(h, args)
    ensures FormatArgs(h, args) == Some(Join(RenderAll(h, args)))
    ensures |args| > 0 ==> |FormatArgs(h, args).value| == TotalLength(RenderAll(h, args)) + |args| - 1
  {
    if |args| > 1 {
      assert Renders(h, args[1..]) by {
        forall i | 0 <= i < |args| - 1 ensures Render(h, args[1..][i]).Some? {
          assert args[1..][i] == args[i + 1];
        }
      }
      FormatArgsIsJoin(h, args[1..]);
      assert RenderAll(h, args)[1..] == RenderAll(h, args[1..]);
    }
  }

  /**
   * The joined string holds the `i`-th part at `Offset(parts, i)`, preceded
   * by a space when it is not the first. With the length in `Join`'s
   * contract this fixes every character of the result.
   */
  lemma {:induction false} JoinPlacesParts(parts: seq<string>, i: nat)
    requires i < |parts|
    ensures Offset(parts, i) + |parts[i]| <= |Join(parts)|
    ensures Join(parts)[Offset(parts, i)..Offset(parts, i) + |parts[i]|] == parts[i]
    ensures i > 0 ==> Join(parts)[Offset(parts, i) - 1] == ' '
  {
    var r := Join(parts);
    if |parts| == 1 {
    } else if i == 0 {
      assert r == parts[0] + (" " + Join(parts[1..]));
    } else {
      var rest := parts[1..];
      var o := Offset(rest, i - 1);
      JoinPlacesParts(rest, i - 1);
      var d := |parts[0]| + 1;
      assert r == (parts[0] + " ") + Join(rest);
      assert r[d + o..d + o + |parts[i]|] == Join(rest)[o..o + |parts[i]|];
      if i - 1 == 0 {
        assert r[d - 1] == ' ';
      } else {
        assert r[d + o - 1] == Join(rest)[o - 1];
      }
    }
  }

  /**
   * The `i`-th argument's rendering stands at its offset in the formatted
   * line, after a single space unless it is the first argument.
   */
  lemma FormatArgsPlacesArgument(h: Host, args: seq<Value>, i: nat)
    requires i < |args| && Renders(h, args)
    ensures var parts, line := RenderAll(h, args), FormatArgs(h, args).value;
      var o, part := Offset(parts, i), Render(h, args[i]).value;
      && o + |part| <= |line|
      && line[o..o + |part|] == part
      && (i > 0 ==> line[o - 1] == ' ')
  {
    var parts := RenderAll(h, args);
    FormatArgsIsJoin(h, args);
    var line, part := Join(parts), parts[i];
    assert FormatArgs(h, args).value == line && Render(h, args[i]).value == part;
    JoinPlacesParts(parts, i);
  }

  /** null, arrays and plain objects, and only they, go through JSON.stringify. */
  lemma StringifiedKinds(k: Kind)
    ensures TypeOf(k) == "object" <==> k in {Null, ArrayObject, PlainObject}
  {
  }
}
