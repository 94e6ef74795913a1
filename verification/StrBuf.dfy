/** The growable buffer of src/json.c: doubling storage, always NUL-terminated once allocated. */
module StringBuffer {
  import opened CText

  // ---------------------------------------------------------------- what growing costs

  /** Length, capacity, and the bytes reallocation has moved. */
  datatype Room = Room(length: nat, capacity: nat, moved: nat)

  const NO_ROOM := Room(0, 0, 0)

  /** `start`, doubled until it holds `needed`. */
  function Doubled(start: nat, needed: nat): (r: nat)
    requires start > 0
    ensures r >= needed && r >= start
    ensures r == start || (r >= 2 * start && r < 2 * needed)
    decreases needed - start
  {
    if needed <= start then start else Doubled(2 * start, needed)
  }

  /** One append: a reallocation moves the whole old block. */
  function AfterAppend(r: Room, n: nat): Room {
    var needed := r.length + n + 1;
    if needed <= r.capacity then r.(length := r.length + n)
    else Room(r.length + n, Doubled(if r.capacity == 0 then 256 else r.capacity, needed), r.moved + r.capacity)
  }

  function AfterAppends(r: Room, sizes: seq<nat>): Room
    decreases |sizes|
  {
    if sizes == [] then r else AfterAppends(AfterAppend(r, sizes[0]), sizes[1..])
  }

  function Sum(sizes: seq<nat>): nat {
    if sizes == [] then 0 else sizes[0] + Sum(sizes[1..])
  }

  /** Storage is never oversized, and moving it has cost less than its size. */
  predicate Lean(r: Room) {
    r.length < r.capacity && r.moved < r.capacity && (r.capacity == 256 || r.capacity <= 2 * (r.length + 1))
  }

  /** Over any appends: the length is the sum, the bytes moved stay below the final capacity. */
  lemma {:induction false} AppendsStayLean(r: Room, sizes: seq<nat>)
    requires r == NO_ROOM || (r.capacity >= 256 && Lean(r))
    ensures var last := AfterAppends(r, sizes);
            && last.length == r.length + Sum(sizes)
            && (sizes != [] ==> last.capacity >= 256 && Lean(last))
    decreases |sizes|
  {
    if sizes != [] {
      AppendsStayLean(AfterAppend(r, sizes[0]), sizes[1..]);
    }
  }

  /** `memcpy` of a text into an array. */
  method CopyInto(a: array<char>, at: nat, text: string)
    requires at + |text| <= a.Length
    modifies a
    ensures a[..at] == old(a[..at]) && a[at..at + |text|] == text
  {
    for i := 0 to |text|
      invariant a[..at] == old(a[..at]) && a[at..at + i] == text[..i]
    {
      a[at + i] := text[i];
    }
  }

  class StrBuf {
    var data: array?<char>
    var length: nat
    var capacity: nat
    /** Bytes that reallocation has moved so far. */
    ghost var moved: nat

    ghost function Repr(): set<object>
      reads this
    {
      if data == null then {this} else {this, data}
    }

    ghost function Size(): Room
      reads this
    {
      Room(length, capacity, moved)
    }

    ghost predicate Stored()
      reads this, data
    {
      if data == null then Size() == NO_ROOM
      else data.Length == capacity && capacity >= 256 && Lean(Size())
    }

    ghost predicate Valid()
      reads this, data
    {
      Stored() && (data != null ==> data[length] == NUL)
    }

    ghost function Contents(): string
      reads this, data
      requires Valid()
    {
      if data == null then [] else data[..length]
    }

    /** fl_strbuf_init. */
    constructor ()
      ensures Valid() && fresh(Repr()) && Contents() == []
    {
      data := null;
      length := 0;
      capacity := 0;
      moved := 0;
    }

    /** strbuf_reserve: room for `extra` more characters and the terminator. */
    method Reserve(extra: nat)
      requires Valid()
      modifies Repr()
      ensures fresh(Repr() - old(Repr()))
      ensures data != null && data.Length == capacity && length == old(length)
      ensures Size().(length := length + extra) == AfterAppend(old(Size()), extra)
      ensures length + extra + 1 <= capacity && data[..length] == old(Contents())
    {
      if length + extra + 1 <= capacity {
        return;
      }
      var wanted := if capacity != 0 then capacity else 256;
      ghost var start := wanted;
      while wanted < length + extra + 1
        invariant wanted > 0 && Doubled(wanted, length + extra + 1) == Doubled(start, length + extra + 1)
        decreases length + extra + 1 - wanted
      {
        wanted := wanted * 2;
      }
      var grown := new char[wanted](_ => NUL);
      if data != null {
        for i := 0 to length
          modifies grown
          invariant grown[..i] == data[..i]
        {
          grown[i] := data[i];
        }
        moved := moved + capacity;
      }
      data := grown;
      capacity := wanted;
    }

    /** fl_strbuf_append_len, and fl_strbuf_append for a text without NULs. */
    method Append(text: string)
      requires Valid()
      modifies Repr()
      ensures Valid() && fresh(Repr() - old(Repr()))
      ensures data != null && Contents() == old(Contents()) + text
      ensures Size() == AfterAppend(old(Size()), |text|)
    {
      Reserve(|text|);
      CopyInto(data, length, text);
      ghost var n := length;
      length := length + |text|;
      data[length] := NUL;
      assert data[..length] == data[..n] + data[n..n + |text|];
    }

    /** Whether the text so far ends in `c`. */
    method EndsIn(c: char) returns (ends: bool)
      requires Valid()
      ensures ends == (Contents() != "" && Contents()[|Contents()| - 1] == c)
    {
      ends := length > 0 && data[length - 1] == c;
    }

    /** The text so far, as its reader sees it. */
    method Text() returns (text: string)
      requires Valid()
      ensures text == Contents()
    {
      text := if data == null then "" else data[..length];
    }
  }
}
