// The packed logon buffer of the Windows credential provider: a header followed by three counted
// UTF-16 strings that the header refers to by offset (natives/win-pcbiounlock/src/helpers.cpp).
module LogonBuffer {
  import opened Options
  import opened Bits

  type uint16 = n: nat | n < 0x1_0000
  const ADDRESS_SPACE: nat := 0x1_0000_0000_0000_0000

  /**
   * KERB_INTERACTIVE_UNLOCK_LOGON on a 64-bit system: four bytes of message type and four of padding, three
   * UNICODE_STRINGs of sixteen bytes, and a logon id of eight.
   */
  const DOMAIN: nat := 8
  const USER: nat := 24
  const PASSWORD: nat := 40
  const LOGON_ID: nat := 56
  const HEADER: nat := 64

  datatype Status = S_OK | E_INVALIDARG | ARITHMETIC_OVERFLOW | E_FAIL | E_OUTOFMEMORY

  // ---- counted strings ----

  /** A weak reference to a string: its length in bytes, and the characters it points to. */
  datatype Reference = Reference(length: uint16, maximumLength: uint16, text: seq<uint16>)

  predicate Refers(r: Reference) { r.length == r.maximumLength == 2 * |r.text| }

  /** Accepts exactly the strings whose size in bytes fits sixteen bits; None is a null pointer. */
  method UnicodeStringInitWithString(pwz: Option<seq<uint16>>) returns (hr: Status, us: Reference)
    ensures hr.S_OK? <==> pwz.Some? && |pwz.value| <= 32767
    ensures hr.E_INVALIDARG? <==> pwz.None?
    ensures hr.S_OK? ==> Refers(us) && us.text == pwz.value
  {
    us := Reference(0, 0, []);
    if pwz.None? {
      return E_INVALIDARG, us;
    }
    var lenString := |pwz.value|;
    if lenString > 0xFFFF {
      return ARITHMETIC_OVERFLOW, us;
    }
    if lenString * 2 > 0xFFFF {
      return ARITHMETIC_OVERFLOW, us;
    }
    us := Reference(lenString * 2, lenString * 2, pwz.value);
    hr := S_OK;
  }

  datatype Scenario = CPUS_LOGON | CPUS_UNLOCK_WORKSTATION | CPUS_CREDUI | CPUS_OTHER

  datatype MessageType = KerbInteractiveLogon | KerbWorkstationUnlockLogon {
    function Code(): uint16 { if KerbInteractiveLogon? then 2 else 7 }
  }

  datatype Logon = Logon(messageType: MessageType, domain: Reference, user: Reference, password: Reference)

  predicate Accepted(pwz: Option<seq<uint16>>) { pwz.Some? && |pwz.value| <= 32767 }

  ghost predicate WellReferred(l: Logon) { Refers(l.domain) && Refers(l.user) && Refers(l.password) }

  method KerbInteractiveUnlockLogonInit(domain: Option<seq<uint16>>, user: Option<seq<uint16>>,
                                        password: Option<seq<uint16>>, cpus: Scenario)
    returns (hr: Status, l: Option<Logon>)
    ensures hr.S_OK? <==> Accepted(domain) && Accepted(user) && Accepted(password) && !cpus.CPUS_OTHER?
    ensures hr.S_OK? <==> l.Some?
    ensures l.Some? ==> WellReferred(l.value)
                        && l.value.domain.text == domain.value && l.value.user.text == user.value
                        && l.value.password.text == password.value
    ensures l.Some? ==> (l.value.messageType.KerbWorkstationUnlockLogon? <==> cpus.CPUS_UNLOCK_WORKSTATION?)
  {
    var d, u, p;
    l := None;
    hr, d := UnicodeStringInitWithString(domain);
    if hr.S_OK? {
      hr, u := UnicodeStringInitWithString(user);
      if hr.S_OK? {
        hr, p := UnicodeStringInitWithString(password);
        if hr.S_OK? {
          if cpus.CPUS_OTHER? {
            return E_FAIL, None;
          }
          var messageType := if cpus.CPUS_UNLOCK_WORKSTATION? then KerbWorkstationUnlockLogon else KerbInteractiveLogon;
          l := Some(Logon(messageType, d, u, p));
        }
      }
    }
  }

  // ---- memory ----

  /** Characters as they lie in memory, low byte first. */
  function MemoryOf(text: seq<uint16>): (bytes: seq<uint8>)
    ensures |bytes| == 2 * |text|
  {
    seq(2 * |text|, k requires 0 <= k < 2 * |text| => if k % 2 == 0 then text[k / 2] % 256 else text[k / 2] / 256)
  }

  function TextOf(bytes: seq<uint8>): (text: seq<nat>)
    ensures |text| == |bytes| / 2
  {
    seq(|bytes| / 2, k requires 0 <= k < |bytes| / 2 =>
      var high: nat := bytes[2 * k + 1];
      bytes[2 * k] + 256 * high)
  }

  lemma MemoryReadsBack(text: seq<uint16>)
    ensures TextOf(MemoryOf(text)) == text
  {
    var bytes := MemoryOf(text);
    forall k | 0 <= k < |text|
      ensures TextOf(bytes)[k] == text[k]
    {
      assert bytes[2 * k] == text[k] % 256 && bytes[2 * k + 1] == text[k] / 256;
    }
  }

  // ---- numbers in memory ----

  function Pow256(n: nat): (p: nat)
    ensures p > 0
  {
    if n == 0 then 1 else 256 * Pow256(n - 1)
  }

  /** The low n bytes of v, low byte first. */
  function LittleEndian(v: nat, n: nat): (bytes: seq<uint8>)
    ensures |bytes| == n
    decreases n
  {
    if n == 0 then [] else [v % 256] + LittleEndian(v / 256, n - 1)
  }

  function FromLittleEndian(bytes: seq<uint8>): nat {
    if bytes == [] then 0
    else
      var low: nat := bytes[0];
      low + 256 * FromLittleEndian(bytes[1..])
  }

  lemma {:induction false} NumberReadsBack(v: nat, n: nat)
    requires v < Pow256(n)
    ensures FromLittleEndian(LittleEndian(v, n)) == v
    decreases n
  {
    if n > 0 {
      NumberReadsBack(v / 256, n - 1);
      assert LittleEndian(v, n)[1..] == LittleEndian(v / 256, n - 1);
    }
  }

  lemma Widths()
    ensures Pow256(2) == 0x1_0000 && Pow256(4) == 0x1_0000_0000 && Pow256(8) == ADDRESS_SPACE
  {
    assert Pow256(3) == 0x100_0000;
    assert Pow256(5) == 0x100_0000_0000;
    assert Pow256(6) == 0x1_0000_0000_0000;
    assert Pow256(7) == 0x100_0000_0000_0000;
  }

  // ---- string fields ----

  /** A UNICODE_STRING: before unpacking `buffer` is an offset, afterwards a pointer. */
  datatype UnicodeString = UnicodeString(length: nat, maximumLength: nat, buffer: nat)

  /** The field at this offset: two lengths of two bytes, four bytes of padding, eight bytes of pointer. */
  function FieldAt(bytes: seq<uint8>, at: nat): UnicodeString
    requires at + 16 <= |bytes|
  {
    UnicodeString(FromLittleEndian(bytes[at..at + 2]), FromLittleEndian(bytes[at + 2..at + 4]),
                  FromLittleEndian(bytes[at + 8..at + 16]))
  }

  /** The buffer in memory. */
  datatype Image = Image(address: nat, bytes: seq<uint8>)

  /** The characters a pointer field refers to. */
  function StringAt(m: Image, s: UnicodeString): Option<seq<nat>> {
    var start := s.buffer - m.address;
    if 0 <= start && start + s.length <= |m.bytes| then Some(TextOf(m.bytes[start..start + s.length])) else None
  }

  /** Bytes in [at, at + |part|) replaced. */
  function Patched(bytes: seq<uint8>, at: nat, part: seq<uint8>): (r: seq<uint8>)
    requires at + |part| <= |bytes|
    ensures |r| == |bytes|
  {
    bytes[..at] + part + bytes[at + |part|..]
  }

  lemma PatchedElsewhere(bytes: seq<uint8>, at: nat, part: seq<uint8>, i: nat, j: nat)
    requires at + |part| <= |bytes| && i <= j <= |bytes| && (j <= at || at + |part| <= i)
    ensures Patched(bytes, at, part)[i..j] == bytes[i..j]
  {
  }

  lemma PatchedHere(bytes: seq<uint8>, at: nat, part: seq<uint8>)
    requires at + |part| <= |bytes|
    ensures Patched(bytes, at, part)[at..at + |part|] == part
  {
  }

  /** A field away from the patch is the same field. */
  lemma FieldElsewhere(bytes: seq<uint8>, at: nat, part: seq<uint8>, field: nat)
    requires at + |part| <= |bytes| && field + 16 <= |bytes| && (field + 16 <= at || at + |part| <= field)
    ensures FieldAt(Patched(bytes, at, part), field) == FieldAt(bytes, field)
  {
    hide FromLittleEndian, Patched;
    PatchedElsewhere(bytes, at, part, field, field + 2);
    PatchedElsewhere(bytes, at, part, field + 2, field + 4);
    PatchedElsewhere(bytes, at, part, field + 8, field + 16);
  }

  /** A range within one that two states agree on. */
  lemma Within(a: seq<uint8>, b: seq<uint8>, i: nat, j: nat, k: nat, l: nat)
    requires i <= k <= l <= j <= |a| && j <= |b| && a[i..j] == b[i..j]
    ensures a[k..l] == b[k..l]
  {
    forall q | k <= q < l
      ensures a[q] == b[q]
    {
      assert a[q] == a[i..j][q - i] && b[q] == b[i..j][q - i];
    }
  }

  /** A field in a range that two states agree on. */
  lemma FieldWithin(a: seq<uint8>, b: seq<uint8>, i: nat, j: nat, field: nat)
    requires i <= field && field + 16 <= j <= |a| && j <= |b| && a[i..j] == b[i..j]
    ensures FieldAt(a, field) == FieldAt(b, field)
  {
    hide FromLittleEndian;
    Within(a, b, i, j, field, field + 2);
    Within(a, b, i, j, field + 2, field + 4);
    Within(a, b, i, j, field + 8, field + 16);
  }

  /** What the three assignments to a field leave. */
  lemma FieldStored(bytes: seq<uint8>, field: nat, length: uint16, buffer: nat)
    requires field + 16 <= |bytes| && buffer < ADDRESS_SPACE
    ensures var len, ptr := LittleEndian(length, 2), LittleEndian(buffer, 8);
            var r := Patched(Patched(Patched(bytes, field, len), field + 2, len), field + 8, ptr);
            && FieldAt(r, field) == UnicodeString(length, length, buffer)
            && r[..field] == bytes[..field] && r[field + 16..] == bytes[field + 16..]
  {
    hide FromLittleEndian, LittleEndian, Pow256, Patched;
    Widths();
    NumberReadsBack(length, 2);
    NumberReadsBack(buffer, 8);
    var len, ptr := LittleEndian(length, 2), LittleEndian(buffer, 8);
    var once := Patched(bytes, field, len);
    var twice := Patched(once, field + 2, len);
    PatchedHere(bytes, field, len);
    PatchedHere(once, field + 2, len);
    PatchedHere(twice, field + 8, ptr);
    PatchedElsewhere(once, field + 2, len, field, field + 2);
    PatchedElsewhere(twice, field + 8, ptr, field, field + 2);
    PatchedElsewhere(twice, field + 8, ptr, field + 2, field + 4);
    PatchedOutside(bytes, field, len, field, field + 16);
    PatchedOutside(once, field + 2, len, field, field + 16);
    PatchedOutside(twice, field + 8, ptr, field, field + 16);
  }

  /** Nothing outside a range that holds the patch changes. */
  lemma PatchedOutside(bytes: seq<uint8>, at: nat, part: seq<uint8>, i: nat, j: nat)
    requires i <= at && at + |part| <= j <= |bytes|
    ensures Patched(bytes, at, part)[..i] == bytes[..i] && Patched(bytes, at, part)[j..] == bytes[j..]
  {
  }

  // ---- packing ----

  /** A field with the length of the text and the offset of its bytes. */
  ghost predicate Packed(bytes: seq<uint8>, s: UnicodeString, offset: nat, text: seq<uint16>) {
    && s.length == s.maximumLength == 2 * |text| && s.buffer == offset
    && offset + 2 * |text| <= |bytes|
    && bytes[offset..offset + 2 * |text|] == MemoryOf(text)
  }

  /** The strings follow the header and each other without gap or overlap, and end with the buffer. */
  ghost predicate IsPacked(m: Image, l: Logon) {
    var d, u, p := |l.domain.text|, |l.user.text|, |l.password.text|;
    && |m.bytes| == HEADER + 2 * d + 2 * u + 2 * p
    && FromLittleEndian(m.bytes[..4]) == l.messageType.Code()
    && FromLittleEndian(m.bytes[LOGON_ID..HEADER]) == 0
    && Packed(m.bytes, FieldAt(m.bytes, DOMAIN), HEADER, l.domain.text)
    && Packed(m.bytes, FieldAt(m.bytes, USER), HEADER + 2 * d, l.user.text)
    && Packed(m.bytes, FieldAt(m.bytes, PASSWORD), HEADER + 2 * d + 2 * u, l.password.text)
  }

  /** Copying a string at `offset` changed nothing before that but its field. */
  ghost predicate Copied(a: seq<uint8>, b: seq<uint8>, field: nat, offset: nat, r: Reference) {
    && field + 16 <= offset <= |a| == |b|
    && a[..field] == b[..field] && a[field + 16..offset] == b[field + 16..offset]
    && Packed(b, FieldAt(b, field), offset, r.text)
  }

  // ---- unpacking ----

  /** The range check, in pointer-sized arithmetic. */
  predicate InRange(s: UnicodeString, cb: nat) { (s.buffer + s.maximumLength) % ADDRESS_SPACE <= cb }

  /** The field's offset replaced by a pointer, unless it is zero. */
  function Rebased(bytes: seq<uint8>, at: nat, address: nat): (r: seq<uint8>)
    requires at + 16 <= |bytes|
    ensures |r| == |bytes|
  {
    var buffer := FieldAt(bytes, at).buffer;
    if buffer == 0 then bytes else Patched(bytes, at + 8, LittleEndian((address + buffer) % ADDRESS_SPACE, 8))
  }

  /** Offsets become pointers if the header and all three strings pass the checks, and nothing changes otherwise. */
  function Unpacked(m: Image, cb: nat): Image
    requires cb <= |m.bytes|
  {
    if HEADER <= cb && InRange(FieldAt(m.bytes, DOMAIN), cb) && InRange(FieldAt(m.bytes, USER), cb)
       && InRange(FieldAt(m.bytes, PASSWORD), cb)
    then m.(bytes := Rebased(Rebased(Rebased(m.bytes, DOMAIN, m.address), USER, m.address), PASSWORD, m.address))
    else m
  }

  class Buffer {
    const address: nat
    const memory: array<uint8>

    ghost function Now(): Image
      reads memory
    {
      Image(address, memory[..])
    }

    /** Allocated memory, whatever it holds. */
    constructor (at: nat, cb: nat)
      ensures address == at && memory.Length == cb && fresh(memory)
    {
      address := at;
      memory := new uint8[cb];
    }

    /** CopyMemory, and every assignment to a part of the header. */
    method Store(offset: nat, bytes: seq<uint8>)
      requires offset + |bytes| <= memory.Length
      modifies memory
      ensures memory[..] == Patched(old(memory[..]), offset, bytes)
    {
      forall k | offset <= k < offset + |bytes| {
        memory[k] := bytes[k - offset];
      }
    }

    /** Both lengths and the pointer of the string field at this offset. */
    method StoreField(field: nat, length: uint16, buffer: nat)
      requires field + 16 <= memory.Length && buffer < ADDRESS_SPACE
      modifies memory
      ensures FieldAt(memory[..], field) == UnicodeString(length, length, buffer)
      ensures memory[..field] == old(memory[..field]) && memory[field + 16..] == old(memory[field + 16..])
    {
      hide *;
      ghost var before := memory[..];
      FieldStored(before, field, length, buffer);
      Store(field, LittleEndian(length, 2));
      Store(field + 2, LittleEndian(length, 2));
      Store(field + 8, LittleEndian(buffer, 8));
      assert memory[..][..field] == memory[..field] && memory[..][field + 16..] == memory[field + 16..];
    }

    /** `_UnicodeStringPackedUnicodeStringCopy`, with the field's pointer turned into an offset. */
    method CopyString(r: Reference, field: nat, offset: nat)
      requires Refers(r) && field + 16 <= offset && offset + r.length <= memory.Length < ADDRESS_SPACE
      modifies memory
      ensures Copied(old(memory[..]), memory[..], field, offset, r)
    {
      hide FieldAt, MemoryOf, Patched;
      var bytes := MemoryOf(r.text);
      ghost var before := memory[..];
      Store(offset, bytes);
      ghost var copied := memory[..];
      PatchedHere(before, offset, bytes);
      PatchedElsewhere(before, offset, bytes, 0, field);
      PatchedElsewhere(before, offset, bytes, field + 16, offset);
      StoreField(field, r.length, offset);
      var end := memory.Length;
      ghost var stored := memory[..];
      assert stored[..field] == memory[..field] && stored[field + 16..] == memory[field + 16..];
      Within(stored, copied, field + 16, end, offset, offset + |bytes|);
      Within(stored, copied, field + 16, end, field + 16, offset);
    }

    /** The pointer of one field. */
    method Rebase(field: nat)
      requires field + 16 <= memory.Length
      modifies memory
      ensures memory[..] == Rebased(old(memory[..]), field, address)
    {
      hide FieldAt, FromLittleEndian, LittleEndian, Patched;
      var buffer := FieldAt(memory[..], field).buffer;
      if buffer != 0 {
        Store(field + 8, LittleEndian((address + buffer) % ADDRESS_SPACE, 8));
      }
    }

    /** The caller vouches for cb bytes of memory. */
    method UnpackInPlace(cb: nat)
      requires cb <= memory.Length
      modifies memory
      ensures Now() == Unpacked(old(Now()), cb)
    {
      hide FieldAt, Rebased;
      if HEADER <= cb {
        var bytes := memory[..];
        if InRange(FieldAt(bytes, DOMAIN), cb) && InRange(FieldAt(bytes, USER), cb)
           && InRange(FieldAt(bytes, PASSWORD), cb) {
          Rebase(DOMAIN);
          Rebase(USER);
          Rebase(PASSWORD);
        }
      }
    }
  }

  lemma SizeFits(l: Logon)
    ensures HEADER + l.domain.length + l.user.length + l.password.length < 0x1_0000_0000 < ADDRESS_SPACE
  {
  }

  /** The size always fits a DWORD. Allocation gives an address, or fails. */
  method KerbInteractiveUnlockLogonPack(l: Logon, at: Option<nat>) returns (hr: Status, b: Option<Buffer>, cb: uint32)
    requires WellReferred(l)
    ensures hr == if at.Some? then S_OK else E_OUTOFMEMORY
    ensures hr.S_OK? <==> b.Some?
    ensures b.Some? ==> fresh(b.value.memory) && cb == b.value.memory.Length && b.value.address == at.value
                        && IsPacked(b.value.Now(), l)
  {
    hide FieldAt, MemoryOf, FromLittleEndian, Packed, Copied, IsPacked;
    SizeFits(l);
    cb := HEADER + l.domain.length + l.user.length + l.password.length;
    if at.None? {
      return E_OUTOFMEMORY, None, cb;
    }
    var out := new Buffer(at.value, cb);
    StoreFixedParts(out, l.messageType);
    ghost var fixed := out.memory[..];
    var pbBuffer := HEADER;
    out.CopyString(l.domain, DOMAIN, pbBuffer);
    ghost var first := out.memory[..];
    pbBuffer := pbBuffer + l.domain.length;
    out.CopyString(l.user, USER, pbBuffer);
    ghost var second := out.memory[..];
    pbBuffer := pbBuffer + l.user.length;
    out.CopyString(l.password, PASSWORD, pbBuffer);
    CopiesArePacked(fixed, first, second, out.Now(), l);
    hr, b := S_OK, Some(out);
  }

  /** A string packed before survives the next copy. */
  lemma StaysPacked(a: seq<uint8>, b: seq<uint8>, field: nat, offset: nat, r: Reference, other: nat, start: nat,
                    text: seq<uint16>)
    requires Copied(a, b, field, offset, r)
    requires other + 16 <= field && field + 16 <= start && start + 2 * |text| <= offset
    requires Packed(a, FieldAt(a, other), start, text)
    ensures Packed(b, FieldAt(b, other), start, text)
  {
    hide FieldAt, MemoryOf;
    FieldWithin(a, b, 0, field, other);
    Within(a, b, field + 16, offset, start, start + 2 * |text|);
  }

  /** After the three copies all is in place. */
  lemma CopiesArePacked(fixed: seq<uint8>, first: seq<uint8>, second: seq<uint8>, m: Image, l: Logon)
    requires WellReferred(l)
    requires HEADER <= |fixed| && FromLittleEndian(fixed[..4]) == l.messageType.Code()
    requires FromLittleEndian(fixed[LOGON_ID..HEADER]) == 0
    requires |fixed| == HEADER + l.domain.length + l.user.length + l.password.length
    requires Copied(fixed, first, DOMAIN, HEADER, l.domain)
    requires Copied(first, second, USER, HEADER + l.domain.length, l.user)
    requires Copied(second, m.bytes, PASSWORD, HEADER + l.domain.length + l.user.length, l.password)
    ensures IsPacked(m, l)
  {
    hide FieldAt, MemoryOf, FromLittleEndian;
    var d, u := l.domain.length, l.user.length;
    var r := m.bytes;
    StaysPacked(first, second, USER, HEADER + d, l.user, DOMAIN, HEADER, l.domain.text);
    StaysPacked(second, r, PASSWORD, HEADER + d + u, l.password, DOMAIN, HEADER, l.domain.text);
    StaysPacked(second, r, PASSWORD, HEADER + d + u, l.password, USER, HEADER + d, l.user.text);
    Within(fixed, first, 0, DOMAIN, 0, 4);
    Within(first, second, 0, USER, 0, 4);
    Within(second, r, 0, PASSWORD, 0, 4);
    Within(fixed, first, DOMAIN + 16, HEADER, LOGON_ID, HEADER);
    Within(first, second, USER + 16, HEADER + d, LOGON_ID, HEADER);
    Within(second, r, PASSWORD + 16, HEADER + d + u, LOGON_ID, HEADER);
  }

  /** The zeroed logon id and the message type. */
  method StoreFixedParts(out: Buffer, messageType: MessageType)
    requires HEADER <= out.memory.Length
    modifies out.memory
    ensures FromLittleEndian(out.memory[..4]) == messageType.Code()
    ensures FromLittleEndian(out.memory[LOGON_ID..HEADER]) == 0
  {
    hide LittleEndian, FromLittleEndian, Pow256, Patched;
    Widths();
    var id, code := LittleEndian(0, 8), LittleEndian(messageType.Code(), 4);
    NumberReadsBack(0, 8);
    NumberReadsBack(messageType.Code(), 4);
    ghost var before := out.memory[..];
    out.Store(LOGON_ID, id);
    ghost var zeroed := out.memory[..];
    out.Store(0, code);
    PatchedHere(before, LOGON_ID, id);
    PatchedHere(zeroed, 0, code);
    PatchedElsewhere(zeroed, 0, code, LOGON_ID, HEADER);
    assert out.memory[..][..4] == out.memory[..4] && out.memory[..][LOGON_ID..HEADER] == out.memory[LOGON_ID..HEADER];
  }

  /** Rebasing one field leaves the other fields and everything behind the header. */
  lemma RebasedElsewhere(bytes: seq<uint8>, at: nat, address: nat, other: nat, i: nat, j: nat)
    requires at + 16 <= HEADER <= i <= j <= |bytes| && other + 16 <= HEADER
    requires other + 16 <= at || at + 16 <= other
    ensures FieldAt(Rebased(bytes, at, address), other) == FieldAt(bytes, other)
    ensures Rebased(bytes, at, address)[i..j] == bytes[i..j]
  {
    hide FieldAt, LittleEndian, Patched;
    var buffer := FieldAt(bytes, at).buffer;
    if buffer != 0 {
      var part := LittleEndian((address + buffer) % ADDRESS_SPACE, 8);
      FieldElsewhere(bytes, at + 8, part, other);
      PatchedElsewhere(bytes, at + 8, part, i, j);
    }
  }

  /** The rebased field points where its offset said. */
  lemma RebasedHere(bytes: seq<uint8>, at: nat, address: nat)
    requires at + 16 <= |bytes| && 0 < FieldAt(bytes, at).buffer
    requires address + FieldAt(bytes, at).buffer < ADDRESS_SPACE
    ensures FieldAt(Rebased(bytes, at, address), at) ==
            FieldAt(bytes, at).(buffer := address + FieldAt(bytes, at).buffer)
  {
    hide LittleEndian, FromLittleEndian, Patched, Pow256;
    Widths();
    var pointer := address + FieldAt(bytes, at).buffer;
    var part := LittleEndian(pointer, 8);
    NumberReadsBack(pointer, 8);
    PatchedHere(bytes, at + 8, part);
    PatchedElsewhere(bytes, at + 8, part, at, at + 2);
    PatchedElsewhere(bytes, at + 8, part, at + 2, at + 4);
  }

  /** A packed string passes the range check with the whole buffer, and its pointer yields the text. */
  lemma PackedInRange(m: Image, s: UnicodeString, offset: nat, text: seq<uint16>)
    requires Packed(m.bytes, s, offset, text) && m.address + |m.bytes| < ADDRESS_SPACE
    ensures InRange(s, |m.bytes|)
  {
  }

  lemma PointerYieldsString(m: Image, r: Image, s: UnicodeString, offset: nat, text: seq<uint16>)
    requires Packed(m.bytes, s, offset, text) && r.address == m.address && |r.bytes| == |m.bytes|
    requires r.bytes[offset..offset + 2 * |text|] == m.bytes[offset..offset + 2 * |text|]
    ensures StringAt(r, s.(buffer := m.address + offset)) == Some(text)
  {
    hide MemoryOf, TextOf;
    MemoryReadsBack(text);
  }

  /** Rebasing one of three fields of a packed buffer. */
  lemma RebasingOne(m: Image, bytes: seq<uint8>, at: nat, offset: nat, text: seq<uint16>)
    requires at + 16 <= HEADER <= offset && HEADER <= |bytes| == |m.bytes| && m.address + |m.bytes| < ADDRESS_SPACE
    requires Packed(m.bytes, FieldAt(m.bytes, at), offset, text) && FieldAt(bytes, at) == FieldAt(m.bytes, at)
    ensures FieldAt(Rebased(bytes, at, m.address), at) == FieldAt(m.bytes, at).(buffer := m.address + offset)
  {
    hide FieldAt, Rebased, MemoryOf;
    RebasedHere(bytes, at, m.address);
  }

  /** A packed buffer passes its own range checks, and unpacking it in place yields the three strings. */
  lemma UnpackingYieldsStrings(m: Image, l: Logon)
    requires IsPacked(m, l) && m.address + |m.bytes| < ADDRESS_SPACE
    ensures var r := Unpacked(m, |m.bytes|);
            && |r.bytes| == |m.bytes|
            && StringAt(r, FieldAt(r.bytes, DOMAIN)) == Some(l.domain.text)
            && StringAt(r, FieldAt(r.bytes, USER)) == Some(l.user.text)
            && StringAt(r, FieldAt(r.bytes, PASSWORD)) == Some(l.password.text)
  {
    hide FieldAt, Rebased, MemoryOf, TextOf, StringAt, InRange, FromLittleEndian;
    var d, u, p := l.domain.text, l.user.text, l.password.text;
    var i := HEADER + 2 * |d|;
    var j := i + 2 * |u|;
    var k := j + 2 * |p|;
    PackedInRange(m, FieldAt(m.bytes, DOMAIN), HEADER, d);
    PackedInRange(m, FieldAt(m.bytes, USER), i, u);
    PackedInRange(m, FieldAt(m.bytes, PASSWORD), j, p);
    var first := Rebased(m.bytes, DOMAIN, m.address);
    var second := Rebased(first, USER, m.address);
    var third := Rebased(second, PASSWORD, m.address);
    RebasedElsewhere(m.bytes, DOMAIN, m.address, USER, HEADER, k);
    RebasedElsewhere(m.bytes, DOMAIN, m.address, PASSWORD, HEADER, k);
    RebasedElsewhere(first, USER, m.address, DOMAIN, HEADER, k);
    RebasedElsewhere(first, USER, m.address, PASSWORD, HEADER, k);
    RebasedElsewhere(second, PASSWORD, m.address, DOMAIN, HEADER, k);
    RebasedElsewhere(second, PASSWORD, m.address, USER, HEADER, k);
    RebasingOne(m, m.bytes, DOMAIN, HEADER, d);
    RebasingOne(m, first, USER, i, u);
    RebasingOne(m, second, PASSWORD, j, p);
    Within(third, m.bytes, HEADER, k, HEADER, i);
    Within(third, m.bytes, HEADER, k, i, j);
    Within(third, m.bytes, HEADER, k, j, k);
    var r := Image(m.address, third);
    PointerYieldsString(m, r, FieldAt(m.bytes, DOMAIN), HEADER, d);
    PointerYieldsString(m, r, FieldAt(m.bytes, USER), i, u);
    PointerYieldsString(m, r, FieldAt(m.bytes, PASSWORD), j, p);
  }

  /** With too small a byte count nothing is touched: the password, packed last, fails its check. */
  lemma ShortCountIsRefused(m: Image, l: Logon, cb: nat)
    requires IsPacked(m, l) && m.address + |m.bytes| < ADDRESS_SPACE && cb < |m.bytes|
    ensures Unpacked(m, cb) == m
  {
    hide FieldAt, Rebased, MemoryOf, FromLittleEndian;
  }

  // ---- the bytes of a packed buffer ----

  /** The low byte comes first. */
  lemma FirstByte(bytes: seq<uint8>)
    requires bytes != []
    ensures bytes[0] == FromLittleEndian(bytes) % 256 && FromLittleEndian(bytes[1..]) == FromLittleEndian(bytes) / 256
  {
  }

  lemma {:induction false} NoBytes(bytes: seq<uint8>, i: nat)
    requires FromLittleEndian(bytes) == 0 && i < |bytes|
    ensures bytes[i] == 0
  {
    if i > 0 { NoBytes(bytes[1..], i - 1); }
  }

  lemma TwoBytes(bytes: seq<uint8>)
    requires |bytes| == 2
    ensures bytes[0] == FromLittleEndian(bytes) % 256 && bytes[1] == FromLittleEndian(bytes) / 256
  {
    FirstByte(bytes);
    FirstByte(bytes[1..]);
    assert bytes[1..][1..] == [] && FromLittleEndian([]) == 0;
    assert bytes[1..][0] == bytes[1];
  }

  /**
   * The message type is 2 or 7, in four bytes; the first string field, at byte 8, has the length in bytes twice,
   * low byte first, and at byte 16 the offset 64; there the characters follow, low byte first.
   */
  lemma PackedBytes(m: Image, l: Logon, i: nat)
    requires IsPacked(m, l) && 2 * |l.domain.text| < 0x1_0000
    ensures |m.bytes| == 64 + 2 * |l.domain.text| + 2 * |l.user.text| + 2 * |l.password.text|
    ensures m.bytes[0] == (if l.messageType.KerbWorkstationUnlockLogon? then 7 else 2)
            && (0 < i < 4 ==> m.bytes[i] == 0)
    ensures m.bytes[8] == m.bytes[10] == 2 * |l.domain.text| % 256
            && m.bytes[9] == m.bytes[11] == 2 * |l.domain.text| / 256
    ensures m.bytes[16] == 64 && (16 < i < 24 ==> m.bytes[i] == 0)
    ensures 56 <= i < 64 ==> m.bytes[i] == 0
    ensures i < |l.domain.text| ==> m.bytes[64 + 2 * i] == l.domain.text[i] % 256
                                    && m.bytes[65 + 2 * i] == l.domain.text[i] / 256
  {
    var b := m.bytes;
    TypeBytes(b, l.messageType.Code(), i);
    LengthBytes(b);
    OffsetBytes(b, i);
    if 56 <= i < 64 { NoBytes(b[56..64], i - 56); }
    if i < |l.domain.text| { TextBytes(b, l.domain.text, i); }
    hide FromLittleEndian, MemoryOf;
  }

  lemma TypeBytes(b: seq<uint8>, code: nat, i: nat)
    requires |b| >= 4 && FromLittleEndian(b[..4]) == code < 256
    ensures b[0] == code && (0 < i < 4 ==> b[i] == 0)
  {
    FirstByte(b[..4]);
    if 0 < i < 4 {
      NoBytes(b[..4][1..], i - 1);
      assert b[..4][1..][i - 1] == b[i];
    }
  }

  lemma LengthBytes(b: seq<uint8>)
    requires |b| >= 64
    ensures b[8] == FieldAt(b, 8).length % 256 && b[9] == FieldAt(b, 8).length / 256
    ensures b[10] == FieldAt(b, 8).maximumLength % 256 && b[11] == FieldAt(b, 8).maximumLength / 256
  {
    TwoBytes(b[8..10]);
    TwoBytes(b[10..12]);
  }

  lemma OffsetBytes(b: seq<uint8>, i: nat)
    requires |b| >= 64 && FieldAt(b, 8).buffer == 64
    ensures b[16] == 64 && (16 < i < 24 ==> b[i] == 0)
  {
    FirstByte(b[16..24]);
    if 16 < i < 24 {
      NoBytes(b[16..24][1..], i - 17);
      assert b[16..24][1..][i - 17] == b[i];
    }
  }

  lemma TextBytes(b: seq<uint8>, text: seq<uint16>, i: nat)
    requires 64 + 2 * |text| <= |b| && b[64..64 + 2 * |text|] == MemoryOf(text) && i < |text|
    ensures b[64 + 2 * i] == text[i] % 256 && b[65 + 2 * i] == text[i] / 256
  {
    var part := b[64..64 + 2 * |text|];
    assert part[2 * i] == b[64 + 2 * i] && part[2 * i + 1] == b[65 + 2 * i];
  }

  // ---- exactly when a buffer is unpacked ----

  /** In 64-bit arithmetic the three strings end within cb bytes. */
  predicate EndsWithin(bytes: seq<uint8>, cb: nat)
    requires |bytes| >= 64
  {
    && (FieldAt(bytes, 8).buffer + FieldAt(bytes, 8).maximumLength) % 0x1_0000_0000_0000_0000 <= cb
    && (FieldAt(bytes, 24).buffer + FieldAt(bytes, 24).maximumLength) % 0x1_0000_0000_0000_0000 <= cb
    && (FieldAt(bytes, 40).buffer + FieldAt(bytes, 40).maximumLength) % 0x1_0000_0000_0000_0000 <= cb
  }

  /** An offset of zero stays, any other one becomes an address. */
  function Pointer(s: UnicodeString, address: nat): UnicodeString {
    if s.buffer == 0 then s else s.(buffer := (address + s.buffer) % 0x1_0000_0000_0000_0000)
  }

  lemma RebasedField(bytes: seq<uint8>, at: nat, address: nat)
    requires at + 16 <= |bytes|
    ensures FieldAt(Rebased(bytes, at, address), at) == Pointer(FieldAt(bytes, at), address)
  {
    hide LittleEndian, FromLittleEndian, Patched, Pow256;
    Widths();
    var buffer := FieldAt(bytes, at).buffer;
    if buffer != 0 {
      var pointer := (address + buffer) % ADDRESS_SPACE;
      var part := LittleEndian(pointer, 8);
      NumberReadsBack(pointer, 8);
      PatchedHere(bytes, at + 8, part);
      PatchedElsewhere(bytes, at + 8, part, at, at + 2);
      PatchedElsewhere(bytes, at + 8, part, at + 2, at + 4);
    }
  }

  /** Whatever is in the buffer: with all strings within cb bytes the three pointers are set, and else nothing. */
  lemma UnpackExactly(m: Image, cb: nat)
    requires cb <= |m.bytes|
    ensures var r := Unpacked(m, cb);
            if cb >= 64 && EndsWithin(m.bytes, cb) then
              && r.address == m.address && |r.bytes| == |m.bytes|
              && FieldAt(r.bytes, 8) == Pointer(FieldAt(m.bytes, 8), m.address)
              && FieldAt(r.bytes, 24) == Pointer(FieldAt(m.bytes, 24), m.address)
              && FieldAt(r.bytes, 40) == Pointer(FieldAt(m.bytes, 40), m.address)
              && r.bytes[64..] == m.bytes[64..]
            else r == m
  {
    hide FieldAt, Rebased;
    if cb >= 64 && EndsWithin(m.bytes, cb) {
      var a, k := m.address, |m.bytes|;
      var first := Rebased(m.bytes, 8, a);
      var second := Rebased(first, 24, a);
      var third := Rebased(second, 40, a);
      RebasedField(m.bytes, 8, a);
      RebasedField(first, 24, a);
      RebasedField(second, 40, a);
      RebasedElsewhere(m.bytes, 8, a, 24, HEADER, k);
      RebasedElsewhere(m.bytes, 8, a, 40, HEADER, k);
      RebasedElsewhere(first, 24, a, 8, HEADER, k);
      RebasedElsewhere(first, 24, a, 40, HEADER, k);
      RebasedElsewhere(second, 40, a, 8, HEADER, k);
      RebasedElsewhere(second, 40, a, 24, HEADER, k);
      assert Unpacked(m, cb).bytes == third;
      assert third[64..] == third[64..k] && m.bytes[64..] == m.bytes[64..k];
    }
  }
}
