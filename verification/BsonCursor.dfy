/**
 Reading BSON as the source does it: a cursor whose offset moves through one buffer up to an end. Every
 method is proved to give what the function of the same work in `Bson` gives on the bytes between the
 two, and to leave the cursor where that function leaves off. A thrown error is a missing result.
 */
module BsonCursor {
  import opened Bytes
  import opened Wrappers
  import opened Bson

  class Cursor {
    const buffer: seq<Byte>
    const end: nat
    var offset: nat

    constructor (buffer: seq<Byte>, offset: nat, end: nat)
      requires offset <= end <= |buffer|
      ensures Valid() && this.buffer == buffer && this.end == end && this.offset == offset
    {
      this.buffer, this.end, this.offset := buffer, end, offset;
    }

    ghost predicate Valid()
      reads this
    {
      offset <= end <= |buffer|
    }

    // The bytes still to be read.
    ghost function Rest(): seq<Byte>
      requires Valid()
      reads this
    {
      buffer[offset..end]
    }

    // What a reader gives, and where it leaves off.
    ghost predicate Yields<T>(spec: Option<Parsed<T>>, r: Option<T>)
      requires Valid()
      reads this
    {
      spec == if r.None? then None else Some(Parsed(r.value, Rest()))
    }

    // The next `n` bytes, if there are as many.
    method Advance(n: nat) returns (r: Option<seq<Byte>>)
      requires Valid()
      modifies this`offset
      ensures Valid() && offset >= old(offset)
      ensures Yields(Bson.Take(old(Rest()), n), r)
    {
      if offset + n > end {
        return None;
      }
      ghost var was := Rest();
      offset := offset + n;
      assert was[..n] == buffer[offset - n..offset] && was[n..] == Rest();
      r := Some(buffer[offset - n..offset]);
    }

    method CString(env: Env) returns (r: Option<string>)
      requires Valid()
      modifies this`offset
      ensures Valid() && offset >= old(offset) && (r.Some? ==> offset > old(offset))
      ensures Yields(ReadName(env, old(Rest())), r)
    {
      hide ZeroAt;
      ghost var was := Rest();
      var stop := offset;
      while stop < |buffer| && buffer[stop] != 0
        invariant offset <= stop <= |buffer| && forall i :: offset <= i < stop ==> buffer[i] != 0
      {
        stop := stop + 1;
      }
      ZeroFound(was, if stop < end then stop - offset else |was|);
      if stop >= |buffer| || stop >= end {
        return None;
      }
      assert was[..stop - offset] == buffer[offset..stop];
      assert was[stop - offset + 1..] == buffer[stop + 1..end];
      r := Some(env.text(buffer[offset..stop]));
      offset := stop + 1;
    }

    // There is only one first zero.
    lemma {:induction false} ZeroFound(bytes: seq<Byte>, j: nat)
      requires j <= |bytes| && (forall k :: 0 <= k < j ==> bytes[k] != 0) && (j < |bytes| ==> bytes[j] == 0)
      ensures ZeroAt(bytes) == j
    {
      if j > 0 {
        ZeroFound(bytes[1..], j - 1);
      }
    }

    lemma Within(a: nat, b: nat, i: nat, j: nat)
      requires i <= j <= b - a && b <= |buffer|
      ensures buffer[a..b][i..j] == buffer[a + i..a + j]
    {
      forall k | 0 <= k < j - i ensures buffer[a..b][i..j][k] == buffer[a + i..a + j][k] {
        assert buffer[a..b][i + k] == buffer[a + i + k];
      }
    }

    method LengthPrefixed(env: Env) returns (r: Option<string>)
      requires Valid()
      modifies this`offset
      ensures Valid() && offset >= old(offset) && (r.Some? ==> offset > old(offset))
      ensures Yields(ReadString(env, old(Rest())), r)
    {
      hide Int32Of;
      ghost var was := Rest();
      var prefix := Advance(4);
      if prefix == None {
        return None;
      }
      var length := Int32Of(prefix.value);
      if length < 1 || offset + length > end || buffer[offset + length - 1] != 0 {
        return None;
      }
      Within(offset - 4, end, 4, 4 + length - 1);
      assert was[4 + length..] == buffer[offset + length..end];
      r := Some(env.text(buffer[offset..offset + length - 1]));
      offset := offset + length;
    }

    method BinaryValue(env: Env) returns (r: Option<Value>)
      requires Valid()
      modifies this`offset
      ensures Valid() && offset >= old(offset)
      ensures Yields(ReadBinary(env, old(Rest())), r)
    {
      hide Int32Of, BinaryOf;
      ghost var was := Rest();
      var head := Advance(5);
      if head == None {
        return None;
      }
      var length, subtype := Int32Of(head.value[..4]), head.value[4];
      assert head.value == was[..5] && was[..5][..4] == was[..4];
      if length < 0 {
        return None;
      }
      var bytes := Advance(length);
      if bytes == None {
        return None;
      }
      assert was[5..][..length] == was[5..5 + length] && was[5..][length..] == was[5 + length..];
      r := Some(BinaryOf(env, subtype, bytes.value));
    }

    method RegexValue(env: Env) returns (r: Option<Value>)
      requires Valid()
      modifies this`offset
      ensures Valid() && offset >= old(offset)
      ensures Yields(ReadRegex(env, old(Rest())), r)
    {
      hide ReadName;
      var pattern := CString(env);
      if pattern == None {
        return None;
      }
      var flags := CString(env);
      if flags == None {
        return None;
      }
      r := Some(Tag(env, Regex(pattern.value, flags.value)));
    }

    method DbPointerValue(env: Env) returns (r: Option<Value>)
      requires Valid()
      modifies this`offset
      ensures Valid() && offset >= old(offset)
      ensures Yields(ReadDbPointer(env, old(Rest())), r)
    {
      hide ReadString;
      var space := LengthPrefixed(env);
      if space == None {
        return None;
      }
      var id := Advance(12);
      if id == None {
        return None;
      }
      r := Some(Tag(env, DbPointer(space.value, id.value)));
    }

    // A value that holds no document.
    method ScalarValue(env: Env, type_: Byte) returns (r: Option<Value>)
      requires Valid()
      modifies this`offset
      ensures Valid() && offset >= old(offset)
      ensures Yields(ReadScalar(env, type_, old(Rest())), r)
    {
      hide ReadString, ReadBinary, ReadRegex, ReadDbPointer, FixedValue, Tag;
      if FixedWidth(type_).Some? {
        var bytes := Advance(FixedWidth(type_).value);
        if bytes == None {
          return None;
        }
        r := Some(FixedValue(env, type_, bytes.value));
      } else if type_ == T_STRING || type_ == T_JAVASCRIPT || type_ == T_SYMBOL {
        var text := LengthPrefixed(env);
        if text == None {
          return None;
        }
        r := Some(
          if type_ == T_STRING then Text(text.value)
          else if type_ == T_JAVASCRIPT then Tag(env, JavaScript(text.value))
          else Tag(env, Symbol(text.value)));
      } else if type_ == T_BINARY {
        r := BinaryValue(env);
      } else if type_ == T_REGEX {
        r := RegexValue(env);
      } else if type_ == T_DB_POINTER {
        r := DbPointerValue(env);
      } else {
        r := None;
      }
    }

    method AnyValue(env: Env, type_: Byte, depth: nat) returns (r: Option<Value>)
      requires Valid()
      modifies this`offset
      ensures Valid() && offset >= old(offset)
      ensures Yields(ReadValue(env, type_, old(Rest()), depth), r)
      decreases end - offset, 1
    {
      hide ReadScalar, ReadString, ReadDocument, Tag;
      if type_ == T_DOCUMENT || type_ == T_ARRAY {
        r := DocumentAt(env, type_ == T_ARRAY, depth + 1);
      } else if type_ == T_JAVASCRIPT_SCOPE {
        r := ScopeValue(env, depth);
      } else {
        r := ScalarValue(env, type_);
      }
    }

    // Code with a scope: the scope is read and dropped.
    method ScopeValue(env: Env, depth: nat) returns (r: Option<Value>)
      requires Valid()
      modifies this`offset
      ensures Valid() && offset >= old(offset)
      ensures Yields(ReadValue(env, T_JAVASCRIPT_SCOPE, old(Rest()), depth), r)
      decreases end - offset, 0
    {
      hide ReadScalar, ReadString, ReadDocument, Tag;
      var length := Advance(4);
      if length == None {
        return None;
      }
      var code := LengthPrefixed(env);
      if code == None {
        return None;
      }
      var scope := DocumentAt(env, false, depth + 1);
      if scope == None {
        return None;
      }
      r := Some(Tag(env, JavaScript(code.value)));
    }

    method DocumentAt(env: Env, isArray: bool, depth: nat) returns (r: Option<Value>)
      requires Valid()
      modifies this`offset
      ensures Valid() && offset >= old(offset)
      ensures Yields(ReadDocument(env, old(Rest()), isArray, depth), r)
      decreases end - offset, 0
    {
      hide ReadElements, Int32Of, ObjectOf, ValuesOf;
      ghost var was := Rest();
      if depth > MAX_DEPTH || offset + 5 > end {
        return None;
      }
      var start := offset;
      var size := Int32Of(buffer[start..start + 4]);
      assert was[..4] == buffer[start..start + 4];
      if size < 5 || size > MAX_DOCUMENT_BYTES || start + size > end || buffer[start + size - 1] != 0 {
        return None;
      }
      assert was[size - 1] == buffer[start + size - 1];
      Within(start, end, 4, size - 1);
      assert was[size..] == buffer[start + size..end];
      var inner := new Cursor(buffer, start + 4, start + size - 1);
      var elements := inner.Elements(env, depth);
      if elements == None {
        return None;
      }
      r := Some(if isArray then List(elements.value.0) else Document(elements.value.1));
      offset := start + size;
    }

    // All elements up to the end, pushed to an array and set on an object.
    method Elements(env: Env, depth: nat) returns (r: Option<(seq<Value>, seq<Field>)>)
      requires Valid()
      modifies this`offset
      ensures Valid()
      ensures match ReadElements(env, old(Rest()), depth)
              case None => r == None
              case Some(elements) => r == Some((ValuesOf(elements), ObjectOf(elements)))
      decreases end - offset, 2
    {
      hide ReadValue, ReadName, ObjectOf, ReadElements, Put;
      ghost var was := Rest();
      ghost var elements: seq<Field> := [];
      var items: seq<Value> := [];
      var fields: seq<Field> := [];
      NothingSet();
      assert MoreToCome(env, was, elements, depth) by {
        NothingRead(ReadElements(env, was, depth));
      }
      while offset < end
        invariant Valid() && offset >= old(offset)
        invariant MoreToCome(env, was, elements, depth)
        invariant items == ValuesOf(elements) && fields == ObjectOf(elements)
        decreases end - offset
      {
        ghost var before := Rest();
        var type_ := buffer[offset];
        offset := offset + 1;
        assert before[1..] == Rest() && before[0] == type_;
        OneElement(env, before, depth);
        var name := CString(env);
        if name == None {
          return None;
        }
        var value := AnyValue(env, type_, depth);
        if value == None {
          return None;
        }
        ghost var f := Field(name.value, value.value);
        OneMore(elements, f);
        Regrouped(elements, f, ReadElements(env, Rest(), depth));
        elements := elements + [f];
        items := items + [value.value];
        fields := Put(fields, Field(name.value, value.value));
      }
      assert Rest() == [];
      NoneLeft(env, depth);
      assert elements + [] == elements;
      r := Some((items, fields));
    }

    // What has been read, and what is still to come, make up the whole.
    ghost predicate MoreToCome(env: Env, was: seq<Byte>, elements: seq<Field>, depth: nat)
      requires Valid()
      reads this
    {
      var rest := ReadElements(env, Rest(), depth);
      ReadElements(env, was, depth) == if rest == None then None else Some(elements + rest.value)
    }

    lemma NothingRead(rest: Option<seq<Field>>)
      ensures rest.Some? ==> [] + rest.value == rest.value
    {
    }

    lemma NothingSet()
      ensures ObjectOf([]) == [] && ValuesOf([]) == []
    {
    }

    lemma NoneLeft(env: Env, depth: nat)
      ensures ReadElements(env, [], depth) == Some([])
    {
    }

    lemma Regrouped(elements: seq<Field>, f: Field, rest: Option<seq<Field>>)
      ensures rest.Some? ==> elements + ([f] + rest.value) == elements + [f] + rest.value
    {
    }

    lemma OneMore(elements: seq<Field>, f: Field)
      ensures ObjectOf(elements + [f]) == Put(ObjectOf(elements), f)
      ensures ValuesOf(elements + [f]) == ValuesOf(elements) + [f.value]
    {
      assert (elements + [f])[..|elements|] == elements;
    }

    // One element at the front.
    lemma OneElement(env: Env, bytes: seq<Byte>, depth: nat)
      requires bytes != []
      ensures var name := ReadName(env, bytes[1..]);
              if name == None then ReadElements(env, bytes, depth) == None
              else
                var v := ReadValue(env, bytes[0], name.value.rest, depth);
                if v == None then ReadElements(env, bytes, depth) == None
                else
                  var more := ReadElements(env, v.value.rest, depth);
                  ReadElements(env, bytes, depth) ==
                  if more == None then None else Some([Field(name.value.value, v.value.value)] + more.value)
    {
      hide ReadValue, ReadName;
    }
  }

  /** Reads one document at `offset`; the value, and the offset just past it. */
  method DecodeDocument(env: Env, buffer: seq<Byte>, offset: nat, end: nat) returns (r: Option<(Value, nat)>)
    requires offset <= end <= |buffer|
    ensures match Decode(env, buffer[offset..end])
            case None => r == None
            case Some(p) => r.Some? && r.value.0 == p.value && offset <= r.value.1 <= end && buffer[r.value.1..end] == p.rest
  {
    hide ReadDocument;
    var cursor := new Cursor(buffer, offset, end);
    var value := cursor.DocumentAt(env, false, 0);
    if value == None {
      return None;
    }
    r := Some((value.value, cursor.offset));
  }
}
