/** Turning Move values into debug values, with and without type information (src/debugger/debug_value.rs). */
module Serialization {
  import opened Prelude
  import opened Numerals
  import opened DebugValues

  /** Run-time values. `Number` stands for every integer width but u16 and for booleans, printed already;
      u16 is apart because enum tags are recognised by that width. */
  datatype Value =
    | InvalidValue
    | Number(text: string)
    | U16(tag: nat)
    | AddressValue(account: nat)
    | ContainerValue(container: Container)
    | ContainerReference(container: Container)
    | IndexedReference(container: Container, idx: nat)
    | ClosureValue(text: string)
    | DelayedField

  /** `PackedVec` stands for the vectors specialised to a number type, `VecU8` excepted. */
  datatype Container =
    | Vec(elements: seq<Value>)
    | VecU8(bytes: seq<nat>)
    | PackedVec(numbers: seq<string>)
    | VecAddress(accounts: seq<nat>)
    | StructContainer(elements: seq<Value>)
    | LocalsContainer(elements: seq<Value>)

  datatype Type =
    | NumberType(text: string)
    | AddressType
    | SignerType
    | VectorType(element: Type)
    | Reference(referent: Type)
    | MutableReference(referent: Type)
    | StructType(idx: nat)
    | StructInstantiation(idx: nat, tyArgs: seq<Type>)
    | OtherType

  datatype FieldInfo = FieldInfo(name: string, ty: Option<Type>)

  datatype AdtInfo = StructInfo(fields: seq<FieldInfo>) | EnumInfo(variants: seq<VariantInfo>)

  datatype VariantInfo = VariantInfo(name: string, fields: seq<FieldInfo>)

  datatype AdtName = AdtName(account: nat, moduleName: string, name: string)

  /** Everything the serialiser asks of its surroundings: the type resolver, the decoding of bytes as
      UTF-8, the two ways of printing an address, and where a signer keeps its address. */
  datatype Env = Env(
    adtName: Type -> Option<AdtName>,
    adtInfo: Type -> Option<AdtInfo>,
    utf8: seq<nat> -> Option<string>,
    hex: nat -> string,
    hexLiteral: nat -> string,
    masterAddressFieldOffset: nat)

  // ---------- Without type information ----------

  function SerializeUntyped(env: Env, val: Value): DebugValue
    decreases val, 0
  {
    match val
    case InvalidValue => Invalid
    case Number(text) => Primitive(text)
    case U16(tag) => Primitive(Decimal(tag))
    case AddressValue(account) => Address(env.hex(account))
    case ContainerValue(c) => SerializeContainerUntyped(env, c)
    case ContainerReference(c) => ContainerRef(SerializeContainerUntyped(env, c))
    case IndexedReference(c, idx) => IndexedRef(SerializeElement(env, c, idx))
    case ClosureValue(text) => Closure(text)
    case DelayedField => Delayed
  }

  function Bytes(bytes: seq<nat>): seq<DebugValue> {
    seq(|bytes|, i requires 0 <= i < |bytes| => Primitive(Decimal(bytes[i])))
  }

  function SerializeContainerUntyped(env: Env, c: Container): DebugValue
    decreases c, 0
  {
    match c
    case Vec(elements) => Vector(seq(|elements|, i requires 0 <= i < |elements| => SerializeUntyped(env, elements[i])))
    case VecU8(bytes) => Vector(Bytes(bytes))
    case PackedVec(numbers) => Vector(seq(|numbers|, i requires 0 <= i < |numbers| => Primitive(numbers[i])))
    case VecAddress(accounts) =>
      Vector(seq(|accounts|, i requires 0 <= i < |accounts| => Address(env.hex(accounts[i]))))
    case StructContainer(elements) =>
      Struct(None, [], seq(|elements|, i requires 0 <= i < |elements| => Field("", SerializeUntyped(env, elements[i]))))
    case LocalsContainer(_) => Error("...")
  }

  /** The one element an indexed reference points at. */
  function SerializeElement(env: Env, c: Container, idx: nat): DebugValue
    decreases c, 0
  {
    var outside := Error("slice(<out of bounds>)");
    match c
    case Vec(elements) => if idx < |elements| then SerializeUntyped(env, elements[idx]) else outside
    case StructContainer(elements) => if idx < |elements| then SerializeUntyped(env, elements[idx]) else outside
    case LocalsContainer(elements) => if idx < |elements| then SerializeUntyped(env, elements[idx]) else outside
    case VecU8(bytes) => if idx < |bytes| then Primitive(Decimal(bytes[idx])) else outside
    case PackedVec(numbers) => if idx < |numbers| then Primitive(numbers[idx]) else outside
    case VecAddress(accounts) => if idx < |accounts| then Address(env.hex(accounts[idx])) else outside
  }

  // ---------- With type information ----------

  function FormatType(env: Env, ty: Type): string {
    match ty
    case NumberType(text) => text
    case AddressType => "address"
    case SignerType => "signer"
    case VectorType(inner) => "vector<" + FormatType(env, inner) + ">"
    case Reference(inner) => "&" + FormatType(env, inner)
    case MutableReference(inner) => "&mut " + FormatType(env, inner)
    case StructType(_) => FormatStruct(env, ty)
    case StructInstantiation(_, _) => FormatStruct(env, ty)
    case OtherType => "?"
  }

  function FormatStruct(env: Env, ty: Type): string {
    match env.adtName(ty)
    case Some(n) => n.name
    case None => "?"
  }

  function FormatAdtName(env: Env, ty: Type): Option<string> {
    match env.adtName(ty)
    case Some(n) => Some(n.name)
    case None => None
  }

  function FormatTyArgs(env: Env, ty: Type): seq<string> {
    match ty
    case StructInstantiation(_, tyArgs) => seq(|tyArgs|, i requires 0 <= i < |tyArgs| => FormatType(env, tyArgs[i]))
    case _ => []
  }

  function SerializeValue(env: Env, val: Value, ty: Option<Type>): DebugValue
    decreases val, 1
  {
    match (val, ty)
    case (ContainerReference(c), Some(Reference(inner))) => ContainerRef(SerializeContainer(env, c, inner))
    case (ContainerReference(c), Some(MutableReference(inner))) => ContainerRef(SerializeContainer(env, c, inner))
    case (ContainerValue(c), Some(t)) => SerializeContainer(env, c, t)
    case _ => SerializeUntyped(env, val)
  }

  function SerializeContainer(env: Env, c: Container, ty: Type): DebugValue
    decreases c, 2
  {
    match (c, ty)
    case (StructContainer(elements), SignerType) => SerializeSigner(env, elements)
    case (StructContainer(elements), _) => SerializeAdt(env, c, ty)
    case (Vec(elements), VectorType(inner)) =>
      Vector(seq(|elements|, i requires 0 <= i < |elements| => SerializeValue(env, elements[i], Some(inner))))
    case _ => SerializeContainerUntyped(env, c)
  }

  function SerializeSigner(env: Env, elements: seq<Value>): DebugValue {
    if env.masterAddressFieldOffset < |elements| && elements[env.masterAddressFieldOffset].AddressValue? then
      Signer(env.hexLiteral(elements[env.masterAddressFieldOffset].account))
    else Error("signer(<unknown>)")
  }

  predicate IsMoveString(env: Env, ty: Type) {
    env.adtName(ty) == Some(AdtName(1, "string", "String"))
  }

  function SerializeMoveString(env: Env, elements: seq<Value>): Option<DebugValue> {
    if elements != [] && elements[0].ContainerValue? && elements[0].container.VecU8? then
      match env.utf8(elements[0].container.bytes)
      case Some(s) => Some(MoveString(s))
      case None => None
    else None
  }

  function SerializeAdt(env: Env, c: Container, ty: Type): DebugValue
    requires c.StructContainer?
    decreases c, 1
  {
    var elements := c.elements;
    if IsMoveString(env, ty) && SerializeMoveString(env, elements).Some? then
      SerializeMoveString(env, elements).value
    else
      match env.adtInfo(ty)
      case Some(EnumInfo(variants)) =>
        if elements == [] || !elements[0].U16? then Error("enum(<bad tag>)")
        else if elements[0].tag < |variants| then
          var variant := variants[elements[0].tag];
          EnumVariant(variant.name, SerializeFields(env, c, 1, variant.fields))
        else Error("enum(<unknown tag>)")
      case Some(StructInfo(fields)) =>
        Struct(FormatAdtName(env, ty), FormatTyArgs(env, ty), SerializeFields(env, c, 0, fields))
      case None =>
        Struct(FormatAdtName(env, ty), FormatTyArgs(env, ty),
               seq(|elements|, i requires 0 <= i < |elements| => Field("", SerializeValue(env, elements[i], None))))
  }

  /** The elements from `start` on, labelled and typed by position; positions without information are
      labelled by their index. */
  function SerializeFields(env: Env, c: Container, start: nat, infos: seq<FieldInfo>): seq<Field>
    requires c.StructContainer? && start <= |c.elements|
    decreases c, 0
  {
    seq(|c.elements| - start, i requires 0 <= i < |c.elements| - start =>
      if i < |infos| then Field(infos[i].name, SerializeValue(env, c.elements[start + i], infos[i].ty))
      else Field("[" + Decimal(i) + "]", SerializeValue(env, c.elements[start + i], None)))
  }

  // ---------- What the typed view may do to the untyped one ----------

  /** What the resolver knows about the fields of a type when it is not an enum. */
  function PlainInfos(env: Env, ty: Option<Type>): Option<seq<FieldInfo>> {
    match ty
    case None => None
    case Some(t) =>
      match env.adtInfo(t)
      case Some(StructInfo(fields)) => Some(fields)
      case _ => None
  }

  function LabelAt(infos: Option<seq<FieldInfo>>, i: nat): string {
    match infos
    case None => ""
    case Some(known) => if i < |known| then known[i].name else "[" + Decimal(i) + "]"
  }

  function TypeAt(infos: Option<seq<FieldInfo>>, i: nat): Option<Type> {
    match infos
    case None => None
    case Some(known) => if i < |known| then known[i].ty else None
  }

  function ReferentType(ty: Option<Type>): Option<Type> {
    match ty
    case Some(Reference(inner)) => Some(inner)
    case Some(MutableReference(inner)) => Some(inner)
    case _ => None
  }

  function ElementType(ty: Option<Type>): Option<Type> {
    match ty
    case Some(VectorType(inner)) => Some(inner)
    case _ => None
  }

  /** The name and the arguments put on are those the resolver and the type have. */
  ghost predicate NamedBy(env: Env, ty: Option<Type>, name: Option<string>, tyArgs: seq<string>) {
    && (name.Some? <==> ty.Some? && env.adtName(ty.value).Some?)
    && (name.Some? ==> name.value == env.adtName(ty.value).value.name)
    && if ty.Some? && ty.value.StructInstantiation?
       then |tyArgs| == |ty.value.tyArgs| &&
            forall i :: 0 <= i < |tyArgs| ==> tyArgs[i] == FormatType(env, ty.value.tyArgs[i])
       else tyArgs == []
  }

  predicate Unlabelled(u: DebugValue) { u.Struct? && u.name == None && u.tyArgs == [] }

  /** Read at type `ty`, `t` is `u` with the type's name, arguments and field labels put on, enum tags
      turned into the variant they select, strings decoded and signers shown by their address.
      Nothing else differs: same shape, same order, same leaves. */
  ghost predicate Relabels(env: Env, t: DebugValue, u: DebugValue, ty: Option<Type>)
    decreases t
  {
    match t
    case Struct(name, tyArgs, fields) =>
      && Unlabelled(u)
      && NamedBy(env, ty, name, tyArgs)
      && RelabelsFields(env, fields, u.fields, PlainInfos(env, ty))
    case EnumVariant(name, fields) =>
      && Unlabelled(u) && u.fields != []
      && ty.Some? && env.adtInfo(ty.value).Some? && env.adtInfo(ty.value).value.EnumInfo?
      && var variants := env.adtInfo(ty.value).value.variants;
      exists tag :: 0 <= tag < |variants| && variants[tag].name == name
                    && u.fields[0] == Field("", Primitive(Decimal(tag)))
                    && RelabelsFields(env, fields, u.fields[1..], Some(variants[tag].fields))
    case Vector(items) =>
      && u.Vector? && |items| == |u.items|
      && forall i :: 0 <= i < |items| ==> Relabels(env, items[i], u.items[i], ElementType(ty))
    case ContainerRef(inner) => u.ContainerRef? && Relabels(env, inner, u.target, ReferentType(ty))
    case MoveString(s) =>
      && Unlabelled(u) && u.fields != [] && ty.Some? && IsMoveString(env, ty.value)
      && exists bytes :: env.utf8(bytes) == Some(s) && u.fields[0] == Field("", Vector(Bytes(bytes)))
    case Signer(shown) =>
      && Unlabelled(u) && ty == Some(SignerType)
      && env.masterAddressFieldOffset < |u.fields|
      && exists account :: shown == env.hexLiteral(account) &&
                           u.fields[env.masterAddressFieldOffset] == Field("", Address(env.hex(account)))
    case _ => t == u
  }

  ghost predicate RelabelsFields(env: Env, labelled: seq<Field>, plain: seq<Field>, infos: Option<seq<FieldInfo>>)
    decreases labelled
  {
    && |labelled| == |plain|
    && forall i :: 0 <= i < |labelled| ==>
         && plain[i].name == "" && labelled[i].name == LabelAt(infos, i)
         && Relabels(env, labelled[i].value, plain[i].value, TypeAt(infos, i))
  }

  /** Wherever the types make the serialiser expect a signer or an enum, the value has the address or
      a tag in range. */
  ghost predicate WellTagged(env: Env, val: Value, ty: Option<Type>)
    decreases val, 1
  {
    match (val, ty)
    case (ContainerReference(c), Some(Reference(inner))) => WellTaggedContainer(env, c, inner)
    case (ContainerReference(c), Some(MutableReference(inner))) => WellTaggedContainer(env, c, inner)
    case (ContainerValue(c), Some(t)) => WellTaggedContainer(env, c, t)
    case _ => true
  }

  ghost predicate WellTaggedContainer(env: Env, c: Container, ty: Type)
    decreases c, 2
  {
    match c
    case StructContainer(elements) =>
      if ty.SignerType? then
        env.masterAddressFieldOffset < |elements| && elements[env.masterAddressFieldOffset].AddressValue?
      else WellTaggedAdt(env, c, ty)
    case Vec(elements) =>
      ty.VectorType? ==> forall i :: 0 <= i < |elements| ==> WellTagged(env, elements[i], Some(ty.element))
    case _ => true
  }

  ghost predicate WellTaggedAdt(env: Env, c: Container, ty: Type)
    requires c.StructContainer?
    decreases c, 1
  {
    || (IsMoveString(env, ty) && SerializeMoveString(env, c.elements).Some?)
    || match env.adtInfo(ty)
       case Some(EnumInfo(variants)) =>
         && c.elements != [] && c.elements[0].U16? && c.elements[0].tag < |variants|
         && WellTaggedFields(env, c, 1, variants[c.elements[0].tag].fields)
       case Some(StructInfo(fields)) => WellTaggedFields(env, c, 0, fields)
       case None => true
  }

  ghost predicate WellTaggedFields(env: Env, c: Container, start: nat, infos: seq<FieldInfo>)
    requires c.StructContainer? && start <= |c.elements|
    decreases c, 0
  {
    forall i {:trigger infos[i]} :: 0 <= i < |infos| && start + i < |c.elements| ==>
      WellTagged(env, c.elements[start + i], infos[i].ty)
  }

  // ---------- What the untyped view depicts ----------

  ghost predicate DepictsAll(env: Env, items: seq<DebugValue>, elements: seq<Value>)
    decreases elements, 0
  {
    |items| == |elements| && forall i :: 0 <= i < |elements| ==> Depicts(env, items[i], elements[i])
  }

  /** `u` shows the value: its kind, its text, its elements in order; a reference to one element of a
      container shows that element. */
  ghost predicate Depicts(env: Env, u: DebugValue, val: Value)
    decreases val, 1
  {
    match val
    case InvalidValue => u.Invalid?
    case Number(text) => u.Primitive? && u.text == text
    case U16(tag) => u.Primitive? && AllDigits(u.text) && DecimalValue(u.text) == tag && PlainNumeral(u.text)
    case AddressValue(account) => u.Address? && u.text == env.hex(account)
    case ContainerValue(c) => DepictsContainer(env, u, c)
    case ContainerReference(c) => u.ContainerRef? && DepictsContainer(env, u.target, c)
    case IndexedReference(c, idx) => u.IndexedRef? && DepictsElement(env, u.target, c, idx)
    case ClosureValue(text) => u.Closure? && u.text == text
    case DelayedField => u.Delayed?
  }

  ghost predicate OutOfBounds(u: DebugValue) { u.Error? && u.text == "slice(<out of bounds>)" }

  ghost predicate DepictsElement(env: Env, u: DebugValue, c: Container, idx: nat)
    decreases c, 3
  {
    match c
    case Vec(elements) => if idx < |elements| then Depicts(env, u, elements[idx]) else OutOfBounds(u)
    case StructContainer(elements) => if idx < |elements| then Depicts(env, u, elements[idx]) else OutOfBounds(u)
    case LocalsContainer(elements) => if idx < |elements| then Depicts(env, u, elements[idx]) else OutOfBounds(u)
    case VecU8(bytes) => if idx < |bytes| then DepictsByte(u, bytes[idx]) else OutOfBounds(u)
    case PackedVec(numbers) => if idx < |numbers| then u.Primitive? && u.text == numbers[idx] else OutOfBounds(u)
    case VecAddress(accounts) =>
      if idx < |accounts| then u.Address? && u.text == env.hex(accounts[idx]) else OutOfBounds(u)
  }

  ghost predicate DepictsByte(u: DebugValue, byte: nat) {
    u.Primitive? && PlainNumeral(u.text) && DecimalValue(u.text) == byte
  }

  ghost predicate DepictsContainer(env: Env, u: DebugValue, c: Container)
    decreases c, 2
  {
    match c
    case Vec(elements) => u.Vector? && DepictsAll(env, u.items, elements)
    case VecU8(bytes) =>
      u.Vector? && |u.items| == |bytes| && forall i :: 0 <= i < |bytes| ==> DepictsByte(u.items[i], bytes[i])
    case PackedVec(numbers) =>
      && u.Vector? && |u.items| == |numbers|
      && forall i :: 0 <= i < |numbers| ==> u.items[i].Primitive? && u.items[i].text == numbers[i]
    case VecAddress(accounts) =>
      && u.Vector? && |u.items| == |accounts|
      && forall i :: 0 <= i < |accounts| ==> u.items[i].Address? && u.items[i].text == env.hex(accounts[i])
    case StructContainer(elements) =>
      && Unlabelled(u) && |u.fields| == |elements|
      && forall i :: 0 <= i < |elements| ==> u.fields[i].name == "" && Depicts(env, u.fields[i].value, elements[i])
    case LocalsContainer(_) => u.Error? && u.text == "..."
  }

  lemma {:induction false} UntypedDepicts(env: Env, val: Value)
    ensures Depicts(env, SerializeUntyped(env, val), val)
    decreases val, 1
  {
    match val
    case U16(tag) => DecimalIsPlain(tag);
    case ContainerValue(c) => UntypedContainerDepicts(env, c);
    case ContainerReference(c) => UntypedContainerDepicts(env, c);
    case IndexedReference(c, idx) => ElementDepicted(env, c, idx);
    case _ =>
  }

  lemma {:induction false} ElementDepicted(env: Env, c: Container, idx: nat)
    ensures DepictsElement(env, SerializeElement(env, c, idx), c, idx)
    decreases c, 3
  {
    match c
    case Vec(elements) => if idx < |elements| { UntypedDepicts(env, elements[idx]); }
    case StructContainer(elements) => if idx < |elements| { UntypedDepicts(env, elements[idx]); }
    case LocalsContainer(elements) => if idx < |elements| { UntypedDepicts(env, elements[idx]); }
    case VecU8(bytes) => if idx < |bytes| { DecimalIsPlain(bytes[idx]); }
    case _ =>
  }

  lemma {:induction false} UntypedContainerDepicts(env: Env, c: Container)
    ensures DepictsContainer(env, SerializeContainerUntyped(env, c), c)
    decreases c, 2
  {
    match c
    case Vec(elements) =>
      forall i | 0 <= i < |elements| ensures Depicts(env, SerializeUntyped(env, elements[i]), elements[i]) {
        UntypedDepicts(env, elements[i]);
      }
    case StructContainer(elements) =>
      forall i | 0 <= i < |elements| ensures Depicts(env, SerializeUntyped(env, elements[i]), elements[i]) {
        UntypedDepicts(env, elements[i]);
      }
    case VecU8(bytes) =>
      forall i | 0 <= i < |bytes| ensures DepictsByte(Bytes(bytes)[i], bytes[i]) { DecimalIsPlain(bytes[i]); }
    case _ =>
  }

  /** The number of elements an indexed reference can point at. */
  function Size(c: Container): nat {
    match c
    case Vec(elements) => |elements|
    case VecU8(bytes) => |bytes|
    case PackedVec(numbers) => |numbers|
    case VecAddress(accounts) => |accounts|
    case StructContainer(elements) => |elements|
    case LocalsContainer(elements) => |elements|
  }

  /** A reference to the `idx`-th element shows what opening the whole container shows in that place; a
      container of locals, which is not shown as a whole, shows the local. */
  lemma ReferenceShowsElement(env: Env, c: Container, idx: nat)
    requires idx < Size(c)
    ensures var u := SerializeUntyped(env, IndexedReference(c, idx));
            var whole := SerializeContainerUntyped(env, c);
            && u.IndexedRef?
            && if c.LocalsContainer? then u.target == SerializeUntyped(env, c.elements[idx])
               else if c.StructContainer? then
                 whole.Struct? && |whole.fields| == Size(c) && u.target == whole.fields[idx].value
               else whole.Vector? && |whole.items| == Size(c) && u.target == whole.items[idx]
  {
  }

  // ---------- What types put on ----------

  /** A struct is shown as a string exactly if the resolver calls it 0x1::string::String and its first
      field is a byte vector in UTF-8; then the text is what those bytes decode to. */
  lemma ShownAsString(env: Env, c: Container, ty: Type)
    requires c.StructContainer?
    ensures var bytes := if c.elements == [] then None else BytesOf(c.elements[0]);
            var t := SerializeAdt(env, c, ty);
            && (t.MoveString? <==>
                 env.adtName(ty) == Some(AdtName(1, "string", "String")) && bytes.Some? && env.utf8(bytes.value).Some?)
            && (t.MoveString? ==> t.text == env.utf8(bytes.value).value)
  {
  }

  function BytesOf(val: Value): Option<seq<nat>> {
    match val
    case ContainerValue(VecU8(bytes)) => Some(bytes)
    case _ => None
  }

  /** What is shown instead of a signer without an address and of an enum whose tag selects nothing. */
  lemma IllTaggedShown(env: Env, c: Container, ty: Type)
    requires c.StructContainer?
    ensures ty.SignerType? && !WellTaggedContainer(env, c, ty) ==>
              SerializeContainer(env, c, ty) == Error("signer(<unknown>)")
    ensures !ty.SignerType? && !SerializeContainer(env, c, ty).MoveString?
            && env.adtInfo(ty).Some? && env.adtInfo(ty).value.EnumInfo? ==>
              if c.elements == [] || !c.elements[0].U16? then
                SerializeContainer(env, c, ty) == Error("enum(<bad tag>)")
              else c.elements[0].tag >= |env.adtInfo(ty).value.variants| ==>
                SerializeContainer(env, c, ty) == Error("enum(<unknown tag>)")
  {
  }

  predicate NumberName(text: string) {
    text in ["bool", "u8", "u16", "u32", "u64", "u128", "u256", "i8", "i16", "i32", "i64", "i128", "i256"]
  }

  /** Numbers, addresses, signers, and vectors of and references to such types. */
  predicate BuiltIn(ty: Type) {
    match ty
    case NumberType(text) => NumberName(text)
    case AddressType => true
    case SignerType => true
    case VectorType(inner) => BuiltIn(inner)
    case Reference(inner) => BuiltIn(inner)
    case MutableReference(inner) => BuiltIn(inner)
    case _ => false
  }

  /** How a type is written. */
  lemma TypesWritten(env: Env, inner: Type, name: AdtName, idx: nat, tyArgs: seq<Type>)
    ensures FormatType(env, AddressType) == "address" && FormatType(env, SignerType) == "signer"
    ensures FormatType(env, VectorType(inner)) == "vector<" + FormatType(env, inner) + ">"
    ensures FormatType(env, Reference(inner)) == "&" + FormatType(env, inner)
    ensures FormatType(env, MutableReference(inner)) == "&mut " + FormatType(env, inner)
    ensures forall ty | ty in [StructType(idx), StructInstantiation(idx, tyArgs)] ::
              FormatType(env, ty) == if env.adtName(ty).Some? then env.adtName(ty).value.name else "?"
    ensures FormatType(env, OtherType) == "?"
  {
  }

  lemma {:induction false} TypeInitial(env: Env, ty: Type)
    requires BuiltIn(ty)
    ensures var s := FormatType(env, ty);
            && s != ""
            && match ty
               case NumberType(_) => s[0] in "bui"
               case VectorType(_) => s[0] == 'v'
               case AddressType => s[0] == 'a'
               case SignerType => s[0] == 's'
               case Reference(_) => s[0] == '&' && |s| > 1 && s[1] != 'm'
               case _ => s[..2] == "&m"
  {
    if ty.Reference? {
      TypeInitial(env, ty.referent);
      assert FormatType(env, ty)[1] == FormatType(env, ty.referent)[0];
    } else if ty.MutableReference? {
      assert FormatType(env, ty)[..2] == "&m";
    }
  }

  /** Different types built of numbers, addresses and signers are never written alike. */
  lemma {:induction false} TypesReadApart(env: Env, a: Type, b: Type)
    requires BuiltIn(a) && BuiltIn(b) && FormatType(env, a) == FormatType(env, b)
    ensures a == b
    decreases a
  {
    var s := FormatType(env, a);
    TypeInitial(env, a);
    TypeInitial(env, b);
    match (a, b)
    case (VectorType(x), VectorType(y)) =>
      assert FormatType(env, x) == s[7..|s| - 1] == FormatType(env, y);
      TypesReadApart(env, x, y);
    case (Reference(x), Reference(y)) =>
      assert FormatType(env, x) == s[1..] == FormatType(env, y);
      TypesReadApart(env, x, y);
    case (MutableReference(x), MutableReference(y)) =>
      assert FormatType(env, x) == s[5..] == FormatType(env, y);
      TypesReadApart(env, x, y);
    case _ =>
  }

  // ---------- The theorem ----------

  lemma {:induction false} UntypedRelabelsItself(env: Env, val: Value)
    ensures Relabels(env, SerializeUntyped(env, val), SerializeUntyped(env, val), None)
    decreases val, 0
  {
    match val
    case ContainerValue(c) => UntypedContainerRelabelsItself(env, c);
    case ContainerReference(c) => UntypedContainerRelabelsItself(env, c);
    case _ =>
  }

  lemma {:induction false} UntypedContainerRelabelsItself(env: Env, c: Container)
    ensures Relabels(env, SerializeContainerUntyped(env, c), SerializeContainerUntyped(env, c), None)
    decreases c, 0
  {
    match c
    case Vec(elements) =>
      forall i | 0 <= i < |elements|
        ensures Relabels(env, SerializeUntyped(env, elements[i]), SerializeUntyped(env, elements[i]), None)
      {
        UntypedRelabelsItself(env, elements[i]);
      }
    case StructContainer(elements) =>
      forall i | 0 <= i < |elements|
        ensures Relabels(env, SerializeUntyped(env, elements[i]), SerializeUntyped(env, elements[i]), None)
      {
        UntypedRelabelsItself(env, elements[i]);
      }
    case _ =>
  }

  /** The typed view relabels the untyped one exactly when tags and signers are as the types say. */
  lemma {:induction false} TypedRelabelsUntyped(env: Env, val: Value, ty: Option<Type>)
    ensures Relabels(env, SerializeValue(env, val, ty), SerializeUntyped(env, val), ty) <==> WellTagged(env, val, ty)
    decreases val, 1
  {
    match (val, ty)
    case (ContainerReference(c), Some(Reference(inner))) => ContainerRelabels(env, c, inner);
    case (ContainerReference(c), Some(MutableReference(inner))) => ContainerRelabels(env, c, inner);
    case (ContainerValue(c), Some(t)) => ContainerRelabels(env, c, t);
    case _ => UntypedRelabelsItself(env, val);
  }

  lemma {:induction false} ContainerRelabels(env: Env, c: Container, ty: Type)
    ensures Relabels(env, SerializeContainer(env, c, ty), SerializeContainerUntyped(env, c), Some(ty))
            <==> WellTaggedContainer(env, c, ty)
    decreases c, 2
  {
    match (c, ty)
    case (StructContainer(elements), SignerType) => SignerRelabels(env, elements);
    case (StructContainer(elements), _) => AdtRelabels(env, c, ty);
    case (Vec(elements), VectorType(inner)) =>
      forall i | 0 <= i < |elements|
        ensures Relabels(env, SerializeValue(env, elements[i], Some(inner)), SerializeUntyped(env, elements[i]),
                         Some(inner))
                <==> WellTagged(env, elements[i], Some(inner))
      {
        TypedRelabelsUntyped(env, elements[i], Some(inner));
      }
      VectorRelabels(env, elements, inner);
    case _ => UntypedContainerRelabelsItself(env, c);
  }

  lemma VectorRelabels(env: Env, elements: seq<Value>, inner: Type)
    requires forall i :: 0 <= i < |elements| ==>
               (Relabels(env, SerializeValue(env, elements[i], Some(inner)), SerializeUntyped(env, elements[i]),
                         Some(inner))
                <==> WellTagged(env, elements[i], Some(inner)))
    ensures Relabels(env, SerializeContainer(env, Vec(elements), VectorType(inner)),
                     SerializeContainerUntyped(env, Vec(elements)), Some(VectorType(inner)))
            <==> WellTaggedContainer(env, Vec(elements), VectorType(inner))
  {
    var t := SerializeContainer(env, Vec(elements), VectorType(inner));
    var u := SerializeContainerUntyped(env, Vec(elements));
    assert forall i :: 0 <= i < |elements| ==> t.items[i] == SerializeValue(env, elements[i], Some(inner));
    assert forall i :: 0 <= i < |elements| ==> u.items[i] == SerializeUntyped(env, elements[i]);
  }

  lemma SignerRelabels(env: Env, elements: seq<Value>)
    ensures Relabels(env, SerializeSigner(env, elements), SerializeContainerUntyped(env, StructContainer(elements)),
                     Some(SignerType))
            <==> env.masterAddressFieldOffset < |elements| && elements[env.masterAddressFieldOffset].AddressValue?
  {
  }

  lemma {:induction false} AdtRelabels(env: Env, c: Container, ty: Type)
    requires c.StructContainer? && !ty.SignerType?
    ensures Relabels(env, SerializeAdt(env, c, ty), SerializeContainerUntyped(env, c), Some(ty)) <==>
            WellTaggedAdt(env, c, ty)
    decreases c, 1
  {
    if IsMoveString(env, ty) && SerializeMoveString(env, c.elements).Some? {
      StringRelabels(env, c, ty);
    } else {
      match env.adtInfo(ty)
      case Some(EnumInfo(variants)) =>
        if c.elements != [] && c.elements[0].U16? && c.elements[0].tag < |variants| {
          FieldsRelabel(env, c, 1, Some(variants[c.elements[0].tag].fields));
          EnumRelabels(env, c, ty);
        }
      case Some(StructInfo(fields)) =>
        FieldsRelabel(env, c, 0, Some(fields));
        StructRelabels(env, c, ty);
      case None =>
        UntypedContainerRelabelsItself(env, c);
        UnknownStructRelabels(env, c, ty);
    }
  }

  lemma StructRelabels(env: Env, c: Container, ty: Type)
    requires c.StructContainer?
    requires !(IsMoveString(env, ty) && SerializeMoveString(env, c.elements).Some?)
    requires env.adtInfo(ty).Some? && env.adtInfo(ty).value.StructInfo?
    ensures var infos := env.adtInfo(ty).value.fields;
            Relabels(env, SerializeAdt(env, c, ty), SerializeContainerUntyped(env, c), Some(ty)) <==>
            RelabelsFields(env, SerializeFields(env, c, 0, infos), SerializeContainerUntyped(env, c).fields[0..],
                           Some(infos))
  {
    assert SerializeContainerUntyped(env, c).fields[0..] == SerializeContainerUntyped(env, c).fields;
  }

  lemma UnknownStructRelabels(env: Env, c: Container, ty: Type)
    requires c.StructContainer?
    requires !(IsMoveString(env, ty) && SerializeMoveString(env, c.elements).Some?)
    requires env.adtInfo(ty).None?
    requires Relabels(env, SerializeContainerUntyped(env, c), SerializeContainerUntyped(env, c), None)
    ensures Relabels(env, SerializeAdt(env, c, ty), SerializeContainerUntyped(env, c), Some(ty))
  {
    assert SerializeAdt(env, c, ty).fields == SerializeContainerUntyped(env, c).fields;
  }

  lemma StringRelabels(env: Env, c: Container, ty: Type)
    requires c.StructContainer? && IsMoveString(env, ty) && SerializeMoveString(env, c.elements).Some?
    ensures Relabels(env, SerializeAdt(env, c, ty), SerializeContainerUntyped(env, c), Some(ty))
  {
    var u := SerializeContainerUntyped(env, c);
    var bytes := c.elements[0].container.bytes;
    assert u.fields[0].value == SerializeUntyped(env, c.elements[0]);
    assert u.fields[0].value == SerializeContainerUntyped(env, VecU8(bytes)) == Vector(Bytes(bytes));
    assert u.fields[0] == Field("", Vector(Bytes(bytes)));
  }

  /** The tag printed in the untyped view selects one variant only: its number is the decimal read back. */
  lemma EnumRelabels(env: Env, c: Container, ty: Type)
    requires c.StructContainer? && c.elements != [] && c.elements[0].U16?
    requires env.adtInfo(ty).Some? && env.adtInfo(ty).value.EnumInfo?
    requires !(IsMoveString(env, ty) && SerializeMoveString(env, c.elements).Some?)
    requires c.elements[0].tag < |env.adtInfo(ty).value.variants|
    ensures var variant := env.adtInfo(ty).value.variants[c.elements[0].tag];
            Relabels(env, SerializeAdt(env, c, ty), SerializeContainerUntyped(env, c), Some(ty)) <==>
            RelabelsFields(env, SerializeFields(env, c, 1, variant.fields),
                           SerializeContainerUntyped(env, c).fields[1..], Some(variant.fields))
  {
    var u := SerializeContainerUntyped(env, c);
    var t := SerializeAdt(env, c, ty);
    var variants := env.adtInfo(ty).value.variants;
    var tag := c.elements[0].tag;
    assert u.fields[0] == Field("", SerializeUntyped(env, c.elements[0]));
    assert t == EnumVariant(variants[tag].name, SerializeFields(env, c, 1, variants[tag].fields));
    forall other: nat | Decimal(other) == Decimal(tag) ensures other == tag {
      DecimalIsPlain(other);
      DecimalIsPlain(tag);
    }
  }

  /** Field by field, the labelled elements relate to the unlabelled ones. */
  lemma {:induction false} FieldsRelabel(env: Env, c: Container, start: nat, infos: Option<seq<FieldInfo>>)
    requires c.StructContainer? && start <= |c.elements| && infos.Some?
    ensures RelabelsFields(env, SerializeFields(env, c, start, infos.value),
                           SerializeContainerUntyped(env, c).fields[start..], infos)
            <==> WellTaggedFields(env, c, start, infos.value)
    decreases c, 0
  {
    var labelled := SerializeFields(env, c, start, infos.value);
    var plain := SerializeContainerUntyped(env, c).fields[start..];
    forall i | 0 <= i < |labelled|
      ensures plain[i].name == "" && labelled[i].name == LabelAt(infos, i)
      ensures Relabels(env, labelled[i].value, plain[i].value, TypeAt(infos, i))
              <==> WellTagged(env, c.elements[start + i], TypeAt(infos, i))
    {
      TypedRelabelsUntyped(env, c.elements[start + i], TypeAt(infos, i));
    }
    if RelabelsFields(env, labelled, plain, infos) {
      forall i | 0 <= i < |infos.value| && start + i < |c.elements|
        ensures WellTagged(env, c.elements[start + i], infos.value[i].ty)
      {
        assert Relabels(env, labelled[i].value, plain[i].value, TypeAt(infos, i));
      }
    }
    if WellTaggedFields(env, c, start, infos.value) {
      forall i | 0 <= i < |labelled| ensures Relabels(env, labelled[i].value, plain[i].value, TypeAt(infos, i)) {
        assert i < |infos.value| ==> WellTagged(env, c.elements[start + i], infos.value[i].ty);
      }
    }
  }
}
