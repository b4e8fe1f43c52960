/** The rewriting of byte arrays in a JSON value into hex strings, and what can be recovered from it. */
module Json {
  import opened Common
  import Hex

  datatype Number = PosInt(n: U64) | NegInt(i: I64) | Float(r: real)

  datatype Value =
    | Null
    | Bool(b: bool)
    | Num(number: Number)
    | Str(s: string)
    | Arr(items: seq<Value>)
    | Obj(fields: map<string, Value>)

  predicate IsU8(v: Value) {
    v.Num? && v.number.PosInt? && v.number.n <= 255
  }

  predicate IsOnlyU8(items: seq<Value>) {
    forall i :: 0 <= i < |items| ==> IsU8(items[i])
  }

  predicate AllNumbers(items: seq<Value>) {
    forall i :: 0 <= i < |items| ==> items[i].Num?
  }

  /** The entry `vk` with two arrays of numbers. */
  predicate IsVerificationKey(key: string, items: seq<Value>) {
    && key == "vk" && |items| == 2
    && items[0].Arr? && items[1].Arr?
    && AllNumbers(items[0].items) && AllNumbers(items[1].items)
  }

  predicate IsVkEntry(key: string, v: Value) {
    v.Arr? && IsVerificationKey(key, v.items)
  }

  function BytesOf(items: seq<Value>): (bytes: seq<Byte>)
    requires IsOnlyU8(items)
    ensures |bytes| == |items|
  {
    seq(|items|, i requires 0 <= i < |items| => items[i].number.n)
  }

  function NumbersOf(bytes: seq<Byte>): (items: seq<Value>)
    ensures |items| == |bytes| && IsOnlyU8(items)
  {
    seq(|bytes|, i requires 0 <= i < |bytes| => Num(PosInt(bytes[i])))
  }

  function Transform(v: Value): (r: Value) {
    match v
    case Arr(items) =>
      if items != [] && IsOnlyU8(items) then Str("0x" + Hex.Encode(BytesOf(items)))
      else Arr(seq(|items|, i requires 0 <= i < |items| => Transform(items[i])))
    case Obj(fields) =>
      Obj(map k | k in fields ::
        if fields[k].Arr? && IsVerificationKey(k, fields[k].items) then
          var items := fields[k].items;
          if |items| == 2 && items[0].Arr? && items[1].Arr? then Arr([Transform(items[0]), items[1]])
          else assert false; Null
        else Transform(fields[k]))
    case _ => v
  }

  /** A string that `Transform` could have written for a byte array. */
  predicate HexShaped(s: string) {
    |s| > 2 && s[..2] == "0x" && Hex.IsLowerHex(s[2..])
  }

  /** The decoder: every such string becomes the byte array it stands for again. */
  function Restore(v: Value): (r: Value) {
    match v
    case Str(s) =>
      if HexShaped(s) && Hex.Decode(s[2..]).Ok? then Arr(NumbersOf(Hex.Decode(s[2..]).value)) else v
    case Arr(items) => Arr(seq(|items|, i requires 0 <= i < |items| => Restore(items[i])))
    case Obj(fields) => Obj(map k | k in fields :: Restore(fields[k]))
    case _ => v
  }

  predicate NoHexStrings(v: Value) {
    match v
    case Str(s) => !HexShaped(s)
    case Arr(items) => forall i :: 0 <= i < |items| ==> NoHexStrings(items[i])
    case Obj(fields) => forall k :: k in fields ==> NoHexStrings(fields[k])
    case _ => true
  }

  /** An array of numbers is fixed unless it is a non-empty byte array. */
  lemma NumbersFixed(items: seq<Value>)
    requires AllNumbers(items) && !(items != [] && IsOnlyU8(items))
    ensures Transform(Arr(items)) == Arr(items)
  {
    forall i | 0 <= i < |items| ensures Transform(items[i]) == items[i] { }
    assert seq(|items|, i requires 0 <= i < |items| => Transform(items[i])) == items;
  }

  lemma RestoreNumbers(items: seq<Value>)
    requires AllNumbers(items)
    ensures Restore(Arr(items)) == Arr(items) && NoHexStrings(Arr(items))
  {
    forall i | 0 <= i < |items| ensures Restore(items[i]) == items[i] { }
    assert seq(|items|, i requires 0 <= i < |items| => Restore(items[i])) == items;
  }

  lemma RestoreBytes(items: seq<Value>)
    requires items != [] && IsOnlyU8(items)
    ensures Restore(Transform(Arr(items))) == Arr(items)
  {
    var hex := Hex.Encode(BytesOf(items));
    var s := "0x" + hex;
    assert s[..2] == "0x" && s[2..] == hex;
    Hex.EncodeIsLowerHex(BytesOf(items));
    Hex.DecodeEncode(BytesOf(items));
    assert NumbersOf(BytesOf(items)) == items;
  }

  lemma RestoreString(s: string)
    ensures Restore(Str(s)) == Str(s) <==> !HexShaped(s)
  {
    if HexShaped(s) { Hex.EncodeDecode(s[2..]); }
  }

  lemma {:induction false} RestoreArray(items: seq<Value>)
    requires !(items != [] && IsOnlyU8(items))
    requires forall i :: 0 <= i < |items| ==> (Restore(Transform(items[i])) == items[i] <==> NoHexStrings(items[i]))
    ensures Restore(Transform(Arr(items))) == Arr(items) <==> NoHexStrings(Arr(items))
  {
    var r := Restore(Transform(Arr(items)));
    assert r.Arr? && |r.items| == |items|;
    assert forall i :: 0 <= i < |items| ==> r.items[i] == Restore(Transform(items[i]));
    if NoHexStrings(Arr(items)) {
      assert r.items == items;
    }
  }

  /** What becomes of one field. */
  function TransformField(k: string, v: Value): (r: Value) {
    if IsVkEntry(k, v) then Arr([Transform(v.items[0]), v.items[1]]) else Transform(v)
  }

  lemma TransformedFields(fields: map<string, Value>)
    ensures var t := Transform(Obj(fields));
            && t.Obj? && t.fields.Keys == fields.Keys
            && forall k :: k in fields ==> t.fields[k] == TransformField(k, fields[k])
  {
  }

  lemma {:induction false} RestoreVkField(k: string, v: Value)
    requires IsVkEntry(k, v)
    requires Restore(Transform(v.items[0])) == v.items[0] <==> NoHexStrings(v.items[0])
    ensures Restore(TransformField(k, v)) == v <==> NoHexStrings(v)
  {
    RestoreNumbers(v.items[0].items);
    RestoreNumbers(v.items[1].items);
    var r := Restore(TransformField(k, v));
    assert r.items == [Restore(Transform(v.items[0])), v.items[1]];
    assert v.items == [v.items[0], v.items[1]];
  }

  /**
   The original comes back exactly when no string in it looks like the rewriting of a byte array.
   Object keys do not matter, and `vk` pairs come back like everything else.
   */
  lemma {:induction false} RestoreTransformIff(v: Value)
    ensures Restore(Transform(v)) == v <==> NoHexStrings(v)
  {
    match v
    case Str(s) => RestoreString(s);
    case Arr(items) =>
      if items != [] && IsOnlyU8(items) {
        RestoreBytes(items);
        RestoreNumbers(items);
      } else {
        forall i | 0 <= i < |items| ensures Restore(Transform(items[i])) == items[i] <==> NoHexStrings(items[i]) {
          RestoreTransformIff(items[i]);
        }
        RestoreArray(items);
      }
    case Obj(fields) =>
      forall k | k in fields ensures Restore(TransformField(k, fields[k])) == fields[k] <==> NoHexStrings(fields[k]) {
        if IsVkEntry(k, fields[k]) {
          RestoreTransformIff(fields[k].items[0]);
          RestoreVkField(k, fields[k]);
        } else {
          RestoreTransformIff(fields[k]);
        }
      }
      RestoreObject(fields);
    case _ =>
  }

  lemma {:induction false} RestoreObject(fields: map<string, Value>)
    requires forall k :: k in fields ==>
             (Restore(TransformField(k, fields[k])) == fields[k] <==> NoHexStrings(fields[k]))
    ensures Restore(Transform(Obj(fields))) == Obj(fields) <==> NoHexStrings(Obj(fields))
  {
    var r := Restore(Transform(Obj(fields)));
    assert r.Obj? && r.fields.Keys == fields.Keys;
    assert forall k :: k in fields ==> r.fields[k] == Restore(TransformField(k, fields[k]));
    if NoHexStrings(Obj(fields)) {
      assert r.fields == fields;
    }
  }

  lemma TransformInjective(v: Value, w: Value)
    requires NoHexStrings(v) && NoHexStrings(w) && Transform(v) == Transform(w)
    ensures v == w
  {
    RestoreTransformIff(v);
    RestoreTransformIff(w);
  }

  /** The numbers of `items` are these bytes, one by one. */
  predicate AreBytes(items: seq<Value>, bytes: seq<Byte>) {
    |items| == |bytes| && forall i :: 0 <= i < |items| ==> items[i] == Num(PosInt(bytes[i]))
  }

  /** What becomes of an array: a non-empty one of bytes is their hex after `0x`, any other keeps its places. */
  lemma ArrayRewritten(items: seq<Value>)
    ensures forall bytes :: AreBytes(items, bytes) && items != [] ==>
            Transform(Arr(items)) == Str("0x" + Hex.Encode(bytes))
    ensures (forall bytes :: AreBytes(items, bytes) ==> items == []) ==>
              && Transform(Arr(items)).Arr? && |Transform(Arr(items)).items| == |items|
              && forall i :: 0 <= i < |items| ==> Transform(Arr(items)).items[i] == Transform(items[i])
  {
    forall bytes | AreBytes(items, bytes) && items != []
      ensures Transform(Arr(items)) == Str("0x" + Hex.Encode(bytes))
    {
      assert IsOnlyU8(items);
      assert BytesOf(items) == bytes;
    }
    if IsOnlyU8(items) {
      assert AreBytes(items, BytesOf(items));
    }
  }

  /**
   What becomes of a `vk` pair of number arrays: the first is rewritten if it holds bytes, the second
   stays as it is.
   */
  lemma VkPairRewritten(fields: map<string, Value>, xs: seq<Value>, ys: seq<Value>, bytes: seq<Byte>)
    requires "vk" in fields && fields["vk"] == Arr([Arr(xs), Arr(ys)]) && AllNumbers(xs) && AllNumbers(ys)
    ensures var t := Transform(Obj(fields));
            && t.Obj? && "vk" in t.fields && t.fields["vk"].Arr? && |t.fields["vk"].items| == 2
            && t.fields["vk"].items[1] == Arr(ys)
            && (xs != [] && AreBytes(xs, bytes) ==> t.fields["vk"].items[0] == Str("0x" + Hex.Encode(bytes)))
            && ((forall b :: AreBytes(xs, b) ==> xs == []) ==> t.fields["vk"].items[0] == Arr(xs))
  {
    ArrayRewritten(xs);
    TransformedFields(fields);
    assert IsVkEntry("vk", fields["vk"]);
    if xs != [] && IsOnlyU8(xs) {
      assert AreBytes(xs, BytesOf(xs));
    } else {
      NumbersFixed(xs);
    }
  }

  /** Every other field is rewritten on its own, and no field comes or goes. */
  lemma OtherFieldsRewritten(fields: map<string, Value>, k: string)
    requires k in fields && !(k == "vk" && IsPairOfNumbers(fields[k]))
    ensures var t := Transform(Obj(fields));
            t.Obj? && t.fields.Keys == fields.Keys && t.fields[k] == Transform(fields[k])
  {
    TransformedFields(fields);
  }

  predicate IsPairOfNumbers(v: Value) {
    && v.Arr? && |v.items| == 2 && v.items[0].Arr? && v.items[1].Arr?
    && AllNumbers(v.items[0].items) && AllNumbers(v.items[1].items)
  }

  /** A string shaped like a rewritten byte array cannot be told from the array. */
  lemma HexStringIsNotRecovered()
    ensures Transform(Str("0x00")) == Transform(Arr([Num(PosInt(0))])) && Restore(Transform(Str("0x00"))) != Str("0x00")
  {
    var zero := [Num(PosInt(0))];
    assert BytesOf(zero) == [0];
    assert "0x00"[..2] == "0x" && "0x00"[2..] == "00";
    Hex.EncodeIsLowerHex([0]);
    assert Hex.Encode([0]) == "00";
    RestoreString("0x00");
  }

  predicate IsByteArray(v: Value) {
    v.Arr? && v.items != [] && IsOnlyU8(v.items)
  }

  /** A `vk` entry of two non-empty byte arrays: the first is rewritten, the second deliberately not. */
  predicate IsBytePair(k: string, v: Value) {
    IsVkEntry(k, v) && IsByteArray(v.items[0]) && IsByteArray(v.items[1])
  }

  predicate NoBytePairs(v: Value) {
    match v
    case Arr(items) => forall i :: 0 <= i < |items| ==> NoBytePairs(items[i])
    case Obj(fields) => forall k :: k in fields ==> !IsBytePair(k, fields[k]) && NoBytePairs(fields[k])
    case _ => true
  }

  /** Rewriting neither makes nor hides an array of numbers, other than by turning bytes into a string. */
  lemma NumbersAfterTransform(v: Value)
    ensures Transform(v).Num? ==> Transform(v) == v
    ensures Transform(v).Arr? && AllNumbers(Transform(v).items) ==> Transform(v) == v
  {
    if Transform(v).Arr? && AllNumbers(Transform(v).items) {
      var items := v.items;
      forall i | 0 <= i < |items| ensures items[i].Num? {
        assert Transform(v).items[i] == Transform(items[i]);
      }
      NumbersFixed(items);
    }
  }

  lemma VkAfterTransform(k: string, v: Value)
    requires !IsVkEntry(k, v)
    ensures !IsVkEntry(k, Transform(v))
  {
    var t := Transform(v);
    if IsVkEntry(k, t) {
      assert v.Arr? && |v.items| == 2;
      assert t.items[0] == Transform(v.items[0]) && t.items[1] == Transform(v.items[1]);
      NumbersAfterTransform(v.items[0]);
      NumbersAfterTransform(v.items[1]);
    }
  }

  lemma BytesAfterTransform(items: seq<Value>)
    requires !(items != [] && IsOnlyU8(items))
    ensures var t := Transform(Arr(items));
            t.Arr? && |t.items| == |items| && !(t.items != [] && IsOnlyU8(t.items))
  {
    var t := Transform(Arr(items));
    if t.items != [] && IsOnlyU8(t.items) {
      assert AllNumbers(t.items);
      NumbersAfterTransform(Arr(items));
    }
  }

  lemma {:induction false} VkIdempotentIff(k: string, v: Value)
    requires IsVkEntry(k, v)
    ensures TransformField(k, TransformField(k, v)) == TransformField(k, v) <==> !IsBytePair(k, v)
    ensures NoBytePairs(v)
  {
    var a, b := v.items[0], v.items[1];
    var t := TransformField(k, v);
    if IsByteArray(a) {
      assert t.items[0].Str? && !IsOnlyU8(t.items);
      var tt := Transform(t);
      assert tt.items == [Transform(t.items[0]), Transform(b)];
      if !IsByteArray(b) { NumbersFixed(b.items); }
    } else {
      NumbersFixed(a.items);
      assert t.items == v.items;
    }
  }

  /** A second pass changes nothing exactly when there is no `vk` pair of two non-empty byte arrays. */
  lemma {:induction false} IdempotentIff(v: Value)
    ensures Transform(Transform(v)) == Transform(v) <==> NoBytePairs(v)
  {
    match v
    case Arr(items) =>
      if !(items != [] && IsOnlyU8(items)) {
        forall i | 0 <= i < |items|
          ensures Transform(Transform(items[i])) == Transform(items[i]) <==> NoBytePairs(items[i])
        {
          IdempotentIff(items[i]);
        }
        IdempotentArray(items);
      }
    case Obj(fields) =>
      forall k | k in fields
        ensures TransformField(k, TransformField(k, fields[k])) == TransformField(k, fields[k]) <==>
                !IsBytePair(k, fields[k]) && NoBytePairs(fields[k])
      {
        if IsVkEntry(k, fields[k]) {
          VkIdempotentIff(k, fields[k]);
        } else {
          IdempotentIff(fields[k]);
          VkAfterTransform(k, fields[k]);
        }
      }
      IdempotentObject(fields);
    case _ =>
  }

  /** The second pass over a `vk` pair of bytes rewrites the half that the first left alone. */
  lemma SecondPassRewritesVk(x: Byte, y: Byte)
    ensures var v := Obj(map["vk" := Arr([Arr(NumbersOf([x])), Arr(NumbersOf([y]))])]);
            Transform(Transform(v)) != Transform(v)
  {
    var pair := Arr([Arr(NumbersOf([x])), Arr(NumbersOf([y]))]);
    assert IsBytePair("vk", pair);
    var fields := map["vk" := pair];
    assert "vk" in fields && fields["vk"] == pair;
    IdempotentIff(Obj(fields));
  }

  lemma {:induction false} IdempotentArray(items: seq<Value>)
    requires !(items != [] && IsOnlyU8(items))
    requires forall i :: 0 <= i < |items| ==>
               (Transform(Transform(items[i])) == Transform(items[i]) <==> NoBytePairs(items[i]))
    ensures Transform(Transform(Arr(items))) == Transform(Arr(items)) <==> NoBytePairs(Arr(items))
  {
    BytesAfterTransform(items);
    var t := Transform(Arr(items));
    var tt := Transform(t);
    assert forall i :: 0 <= i < |items| ==> t.items[i] == Transform(items[i]) && tt.items[i] == Transform(t.items[i]);
    if NoBytePairs(Arr(items)) {
      assert tt.items == t.items;
    }
  }

  lemma {:induction false} SameFieldsIff(fields: map<string, Value>, t: map<string, Value>, tt: map<string, Value>)
    requires t.Keys == fields.Keys && tt.Keys == fields.Keys
    requires forall k :: k in fields ==> (tt[k] == t[k] <==> !IsBytePair(k, fields[k]) && NoBytePairs(fields[k]))
    ensures tt == t <==> NoBytePairs(Obj(fields))
  {
    if NoBytePairs(Obj(fields)) {
      assert tt == t;
    } else {
      var k :| k in fields && !(!IsBytePair(k, fields[k]) && NoBytePairs(fields[k]));
      assert tt[k] != t[k];
    }
  }

  lemma {:induction false} IdempotentObject(fields: map<string, Value>)
    requires forall k :: k in fields ==>
               (TransformField(k, TransformField(k, fields[k])) == TransformField(k, fields[k]) <==>
                !IsBytePair(k, fields[k]) && NoBytePairs(fields[k]))
    ensures Transform(Transform(Obj(fields))) == Transform(Obj(fields)) <==> NoBytePairs(Obj(fields))
  {
    TransformedFields(fields);
    var t := Transform(Obj(fields)).fields;
    TransformedFields(t);
    var tt := Transform(Obj(t)).fields;
    forall k | k in fields ensures tt[k] == t[k] <==> !IsBytePair(k, fields[k]) && NoBytePairs(fields[k]) {
      assert tt[k] == TransformField(k, TransformField(k, fields[k]));
    }
    SameFieldsIff(fields, t, tt);
  }
}
