/** rcstring: a NUL-terminated character buffer that grows as text is appended. */
module RcString {

  // RSTRING_INCSTEP
  const GROWTH := 5

  class Buffer {
    var text: array<char>
    var length: nat
    var max: nat

    ghost predicate Valid()
      reads this, text
    {
      text.Length == max + 1 && length <= max && text[length] == '\0'
    }

    ghost function Contents(): string
      requires Valid()
      reads this, text
    {
      text[..length]
    }

    // rcs_create
    constructor (capacity: nat)
      ensures Valid() && fresh(text) && Contents() == "" && max == capacity
    {
      max, length := capacity, 0;
      text := new char[capacity + 1](_ => '\0');
    }

    // rcs_resize, for a size that still holds the contents
    method Resize(size: nat)
      requires Valid() && length <= size
      modifies this
      ensures Valid() && fresh(text) && max == size && length == old(length)
      ensures Contents() == old(Contents())
    {
      var larger := new char[size + 1](_ => '\0');
      var i := 0;
      while i < length
        modifies larger
        invariant i <= length
        invariant larger[..i] == text[..i]
        invariant larger[length] == '\0'
      {
        larger[i] := text[i];
        i := i + 1;
      }
      text, max := larger, size;
    }

    // rcs_catc
    method CatChar(c: char)
      requires Valid()
      modifies this, text
      ensures Valid() && (text == old(text) || fresh(text))
      ensures Contents() == old(Contents()) + [c]
    {
      if max <= length {
        Resize(max + GROWTH);
      }
      text[length] := c;
      length := length + 1;
      text[length] := '\0';
    }

    // rcs_catcs
    method CatString(s: string)
      requires Valid()
      modifies this, text
      ensures Valid() && (text == old(text) || fresh(text))
      ensures Contents() == old(Contents()) + s
    {
      if max < length + |s| {
        Resize(length + |s| + GROWTH);
      }
      ghost var before := text[..length];
      var i := 0;
      while i < |s|
        modifies text
        invariant i <= |s|
        invariant text[..length + i] == before + s[..i]
      {
        text[length + i] := s[i];
        i := i + 1;
      }
      text[length + |s|] := '\0';
      length := length + |s|;
    }
  }
}
