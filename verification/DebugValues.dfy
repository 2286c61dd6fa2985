/** The serialised values the debugger shows, and their one-line display (src/debugger/debug_value.rs). */
module DebugValues {
  import opened Prelude

  datatype Field = Field(name: string, value: DebugValue)

  datatype DebugValue =
    | Invalid
    | Primitive(text: string)
    | Address(text: string)
    | Signer(text: string)
    | Struct(name: Option<string>, tyArgs: seq<string>, fields: seq<Field>)
    | EnumVariant(variant: string, fields: seq<Field>)
    | Vector(items: seq<DebugValue>)
    | ContainerRef(target: DebugValue)
    | IndexedRef(target: DebugValue)
    | MoveString(text: string)
    | Closure(text: string)
    | Delayed
    | Error(text: string)

  /** What stands before the braces of a struct. */
  function StructHeader(name: Option<string>, tyArgs: seq<string>): string {
    match name
    case None => ""
    case Some(n) => n + (if tyArgs == [] then "" else "<" + Join(tyArgs, ", ") + ">") + " "
  }

  /** A struct field; the name is left out when it is empty. */
  function StructFieldText(name: string, shown: string): string {
    if name == "" then shown else name + ": " + shown
  }

  function VariantFieldText(name: string, shown: string): string { name + ": " + shown }

  function Display(v: DebugValue): string {
    match v
    case Invalid => "-"
    case Primitive(s) => s
    case Address(s) => s
    case Error(s) => s
    case Signer(s) => "signer(" + s + ")"
    case Struct(name, tyArgs, fields) =>
      StructHeader(name, tyArgs) + "{ " + Join(StructTexts(fields), ", ") + " }"
    case EnumVariant(name, fields) =>
      if fields == [] then name
      else name + " { " + Join(VariantTexts(fields), ", ") + " }"
    case Vector(items) => "[" + Join(Displays(items), ", ") + "]"
    case ContainerRef(inner) => "(&) " + Display(inner)
    case IndexedRef(inner) => Display(inner)
    case MoveString(s) => "\"" + s + "\""
    case Closure(s) => s
    case Delayed => "<?>"
  }

  function Displays(items: seq<DebugValue>): seq<string> {
    seq(|items|, i requires 0 <= i < |items| => Display(items[i]))
  }

  function StructTexts(fields: seq<Field>): seq<string> {
    seq(|fields|, i requires 0 <= i < |fields| => StructFieldText(fields[i].name, Display(fields[i].value)))
  }

  function VariantTexts(fields: seq<Field>): seq<string> {
    seq(|fields|, i requires 0 <= i < |fields| => VariantFieldText(fields[i].name, Display(fields[i].value)))
  }

  /** What a value that cannot be opened is shown as. */
  lemma LeafDisplays(text: string)
    ensures Display(Invalid) == "-" && Display(Delayed) == "<?>"
    ensures Display(Primitive(text)) == Display(Address(text)) == Display(Closure(text)) == Display(Error(text)) == text
    ensures Display(Signer(text)) == "signer(" + text + ")"
    ensures Display(MoveString(text)) == "\"" + text + "\""
    ensures Display(EnumVariant(text, [])) == text
  {
  }

  /** The output the display implementation writes to, piece by piece. */
  class Formatter {
    var buf: string

    constructor ()
      ensures buf == ""
    {
      buf := "";
    }

    method Write(s: string)
      modifies this
      ensures buf == old(buf) + s
    {
      buf := buf + s;
    }
  }

  /** `Display::fmt`: appends exactly the display of `v`. */
  method Fmt(v: DebugValue, f: Formatter)
    modifies f
    ensures f.buf == old(f.buf) + Display(v)
    decreases v, 2
  {
    match v
    case Invalid => f.Write("-");
    case Primitive(s) => f.Write(s);
    case Address(s) => f.Write(s);
    case Error(s) => f.Write(s);
    case Signer(addr) => f.Write("signer(" + addr + ")");
    case Struct(_, _, _) => FmtStruct(v, f);
    case EnumVariant(_, _) => FmtVariant(v, f);
    case Vector(_) => FmtVector(v, f);
    case ContainerRef(inner) =>
      f.Write("(&) ");
      Fmt(inner, f);
    case IndexedRef(inner) => Fmt(inner, f);
    case MoveString(s) => f.Write("\"" + s + "\"");
    case Closure(s) => f.Write(s);
    case Delayed => f.Write("<?>");
  }

  method FmtStruct(v: DebugValue, f: Formatter)
    requires v.Struct?
    modifies f
    ensures f.buf == old(f.buf) + Display(v)
    decreases v, 1
  {
    FmtStructHeader(v.name, v.tyArgs, f);
    f.Write("{ ");
    FmtStructFields(v, f);
    f.Write(" }");
  }

  method FmtVariant(v: DebugValue, f: Formatter)
    requires v.EnumVariant?
    modifies f
    ensures f.buf == old(f.buf) + Display(v)
    decreases v, 1
  {
    if v.fields == [] {
      f.Write(v.variant);
    } else {
      f.Write(v.variant + " { ");
      FmtVariantFields(v, f);
      f.Write(" }");
    }
  }

  method FmtVector(v: DebugValue, f: Formatter)
    requires v.Vector?
    modifies f
    ensures f.buf == old(f.buf) + Display(v)
    decreases v, 1
  {
    f.Write("[");
    FmtItems(v, f);
    f.Write("]");
  }

  method FmtStructHeader(name: Option<string>, tyArgs: seq<string>, f: Formatter)
    modifies f
    ensures f.buf == old(f.buf) + StructHeader(name, tyArgs)
  {
    if name.Some? {
      f.Write(name.value);
      if tyArgs != [] {
        f.Write("<" + Join(tyArgs, ", ") + ">");
      }
      f.Write(" ");
    }
  }

  method FmtStructField(field: Field, f: Formatter)
    modifies f
    ensures f.buf == old(f.buf) + StructFieldText(field.name, Display(field.value))
    decreases field.value, 3
  {
    if field.name == "" {
      Fmt(field.value, f);
    } else {
      f.Write(field.name + ": ");
      Fmt(field.value, f);
    }
  }

  method FmtStructFields(v: DebugValue, f: Formatter)
    requires v.Struct?
    modifies f
    ensures f.buf == old(f.buf) + Join(StructTexts(v.fields), ", ")
    decreases v, 0
  {
    ghost var texts := StructTexts(v.fields);
    for i := 0 to |v.fields|
      invariant f.buf == old(f.buf) + Join(texts[..i], ", ")
    {
      JoinSnoc(texts, i, ", ");
      if i > 0 { f.Write(", "); }
      FmtStructField(v.fields[i], f);
    }
    assert texts[..|v.fields|] == texts;
  }

  method FmtVariantField(field: Field, f: Formatter)
    modifies f
    ensures f.buf == old(f.buf) + VariantFieldText(field.name, Display(field.value))
    decreases field.value, 3
  {
    f.Write(field.name + ": ");
    Fmt(field.value, f);
  }

  method FmtVariantFields(v: DebugValue, f: Formatter)
    requires v.EnumVariant?
    modifies f
    ensures f.buf == old(f.buf) + Join(VariantTexts(v.fields), ", ")
    decreases v, 0
  {
    ghost var texts := VariantTexts(v.fields);
    for i := 0 to |v.fields|
      invariant f.buf == old(f.buf) + Join(texts[..i], ", ")
    {
      JoinSnoc(texts, i, ", ");
      if i > 0 { f.Write(", "); }
      FmtVariantField(v.fields[i], f);
    }
    assert texts[..|v.fields|] == texts;
  }

  method FmtItems(v: DebugValue, f: Formatter)
    requires v.Vector?
    modifies f
    ensures f.buf == old(f.buf) + Join(Displays(v.items), ", ")
    decreases v, 0
  {
    ghost var texts := Displays(v.items);
    for i := 0 to |v.items|
      invariant f.buf == old(f.buf) + Join(texts[..i], ", ")
    {
      JoinSnoc(texts, i, ", ");
      if i > 0 { f.Write(", "); }
      Fmt(v.items[i], f);
    }
    assert texts[..|v.items|] == texts;
  }
}
