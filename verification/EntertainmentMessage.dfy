/** The packet that streams colours to an entertainment group (src/EntertainmentMode.cpp). */
module EntertainmentMessage {
  import opened Numbers

  datatype Rgb = Rgb(red: Byte, green: Byte, blue: Byte)

  const BLACK := Rgb(0, 0, 0)
  const HEADER_SIZE: nat := 16
  const ID_SIZE: nat := 3
  const LIGHT_SIZE: nat := 9

  /** "HueStream", version 1.0, and zeros: sequence, reserved, colour space RGB. */
  const HEADER: seq<Byte> := [72, 117, 101, 83, 116, 114, 101, 97, 109, 1, 0, 0, 0, 0, 0, 0]

  /** The type, which is light, and the id. */
  function IdBytes(id: int): (s: seq<Byte>)
    ensures |s| == ID_SIZE
  {
    [0, id / 0x100 % 0x100, id % 0x100]
  }

  /** Each colour value twice, to make sixteen bits of eight. */
  function ColorBytes(c: Rgb): (s: seq<Byte>)
    ensures |s| == LIGHT_SIZE - ID_SIZE
  {
    [c.red, c.red, c.green, c.green, c.blue, c.blue]
  }

  function Slot(id: int, c: Rgb): (s: seq<Byte>)
    ensures |s| == LIGHT_SIZE
  {
    IdBytes(id) + ColorBytes(c)
  }

  function Slots(ids: seq<int>, colors: seq<Rgb>): (s: seq<Byte>)
    requires |ids| == |colors|
    ensures |s| == LIGHT_SIZE * |ids|
  {
    if ids == [] then [] else Slots(ids[..|ids| - 1], colors[..|ids| - 1]) + Slot(ids[|ids| - 1], colors[|ids| - 1])
  }

  /** The whole packet. */
  function Encode(ids: seq<int>, colors: seq<Rgb>): (s: seq<Byte>)
    requires |ids| == |colors|
    ensures |s| == HEADER_SIZE + LIGHT_SIZE * |ids|
  {
    HEADER + Slots(ids, colors)
  }

  function Blacks(n: nat): (c: seq<Rgb>)
    ensures |c| == n
  {
    seq(n, _ => BLACK)
  }

  /** The colours after a call of SetColorRGB; an index without a light changes nothing. */
  function Recolored(colors: seq<Rgb>, light: nat, color: Rgb): (c: seq<Rgb>)
    ensures |c| == |colors|
  {
    if light < |colors| then colors[light := color] else colors
  }

  function Position(i: nat): nat {
    HEADER_SIZE + i * LIGHT_SIZE
  }

  class Message {
    /** The ids of the group's lights that the packet has room for. */
    ghost const ids: seq<int>
    ghost var colors: seq<Rgb>
    const bytes: array<Byte>
    const numLights: Byte

    ghost predicate Valid()
      reads this, bytes
    {
      |ids| == |colors| == numLights && bytes[..] == Encode(ids, colors)
    }

    /** The number of lights is kept in eight bits. */
    constructor (lightIds: seq<int>)
      ensures Valid() && fresh(bytes)
      ensures numLights == |lightIds| % 0x100 && ids == lightIds[..numLights]
      ensures colors == Blacks(numLights)
    {
      var n := |lightIds| % 0x100;
      numLights := n;
      ids := lightIds[..n];
      colors := Blacks(n);
      bytes := new Byte[HEADER_SIZE + n * LIGHT_SIZE](_ => 0);
      new;
      WriteHeader();
      assert bytes[..Position(0)] == HEADER + [];
      for light := 0 to numLights
        modifies bytes
        invariant bytes[..Position(light)] == Encode(ids[..light], Blacks(light))
      {
        WriteLight(light, lightIds[light]);
        AppendSlot(ids, light, bytes[..], Position(light));
      }
      assert ids[..numLights] == ids && bytes[..Position(numLights)] == bytes[..];
    }

    method WriteHeader()
      requires HEADER_SIZE <= bytes.Length
      modifies bytes
      ensures bytes[..HEADER_SIZE] == HEADER
    {
      for i := 0 to HEADER_SIZE
        modifies bytes
        invariant forall k | 0 <= k < i :: bytes[k] == HEADER[k]
      {
        bytes[i] := HEADER[i];
      }
    }

    /** The initial data of one light. */
    method WriteLight(light: nat, id: int)
      requires Position(light) + LIGHT_SIZE <= bytes.Length
      modifies bytes
      ensures bytes[Position(light)..Position(light) + LIGHT_SIZE] == Slot(id, BLACK)
      ensures bytes[..Position(light)] == old(bytes[..Position(light)])
    {
      var at := Position(light);
      bytes[at] := 0;
      bytes[at + 1] := id / 0x100 % 0x100;
      bytes[at + 2] := id % 0x100;
      bytes[at + 3] := 0;
      bytes[at + 4] := 0;
      bytes[at + 5] := 0;
      bytes[at + 6] := 0;
      bytes[at + 7] := 0;
      bytes[at + 8] := 0;
      ghost var after := bytes[at..at + 9];
      assert after[..3] == IdBytes(id);
      assert after[3..] == ColorBytes(BLACK);
      assert after == after[..3] + after[3..];
    }

    /** The colour bytes of the light whose slot is at this position. */
    method WriteColor(at: nat, red: Byte, green: Byte, blue: Byte)
      requires at + LIGHT_SIZE <= bytes.Length
      modifies bytes
      ensures bytes[..] == Overwritten(old(bytes[..]), at + ID_SIZE, ColorBytes(Rgb(red, green, blue)))
    {
      bytes[at + 3] := red;
      bytes[at + 4] := red;
      bytes[at + 5] := green;
      bytes[at + 6] := green;
      bytes[at + 7] := blue;
      bytes[at + 8] := blue;
      ghost var before, after := old(bytes[..]), bytes[..];
      assert after[..at + 3] == before[..at + 3];
      assert after[at + 9..] == before[at + 9..];
      assert after[at + 3..at + 9] == ColorBytes(Rgb(red, green, blue));
      Pieces(after, at + 3, at + 9);
    }

    method SetColorRGB(light: Byte, red: Byte, green: Byte, blue: Byte) returns (ok: bool)
      requires Valid()
      modifies this`colors, bytes
      ensures Valid()
      ensures ok == (light < numLights)
      ensures colors == Recolored(old(colors), light, Rgb(red, green, blue))
      ensures !ok ==> bytes[..] == old(bytes[..])
    {
      if light < numLights {
        ghost var before, c := bytes[..], Rgb(red, green, blue);
        assert Position(light) + LIGHT_SIZE <= |before|;
        WriteColor(Position(light), red, green, blue);
        assert bytes[..] == Overwritten(before, Position(light) + ID_SIZE, ColorBytes(c));
        assert bytes[..] == Encode(ids, colors[light := c]) by { RecolorSlot(ids, colors, light, c); }
        colors := colors[light := c];
        ok := true;
      } else {
        ok := false;
      }
    }
  }

  // --- Encoding and decoding ---

  /** Writing the next slot extends the encoding by a light. */
  lemma AppendSlot(ids: seq<int>, n: nat, bytes: seq<Byte>, at: nat)
    requires n < |ids| && at == Position(n) && at + LIGHT_SIZE <= |bytes|
    requires bytes[..at] == Encode(ids[..n], Blacks(n)) && bytes[at..at + LIGHT_SIZE] == Slot(ids[n], BLACK)
    ensures bytes[..Position(n + 1)] == Encode(ids[..n + 1], Blacks(n + 1))
  {
    assert bytes[..at + LIGHT_SIZE] == bytes[..at] + bytes[at..at + LIGHT_SIZE];
    assert ids[..n + 1][..n] == ids[..n];
    assert Blacks(n + 1)[..n] == Blacks(n);
    LastSlot(ids[..n + 1], Blacks(n + 1));
  }

  lemma LastSlot(ids: seq<int>, colors: seq<Rgb>)
    requires |ids| == |colors| > 0
    ensures var n := |ids| - 1; Encode(ids, colors) == Encode(ids[..n], colors[..n]) + Slot(ids[n], colors[n])
  {
    var n := |ids| - 1;
    assert HEADER + (Slots(ids[..n], colors[..n]) + Slot(ids[n], colors[n]))
        == (HEADER + Slots(ids[..n], colors[..n])) + Slot(ids[n], colors[n]);
  }

  /** The packet contains the slot of every light. */
  lemma {:induction false} SlotIsAt(ids: seq<int>, colors: seq<Rgb>, i: nat)
    requires |ids| == |colors| && i < |ids|
    ensures Encode(ids, colors)[Position(i)..Position(i) + LIGHT_SIZE] == Slot(ids[i], colors[i])
  {
    var n := |ids| - 1;
    var shorter := Encode(ids[..n], colors[..n]);
    assert Encode(ids, colors) == shorter + Slot(ids[n], colors[n]);
    if i < n {
      SlotIsAt(ids[..n], colors[..n], i);
      assert Encode(ids, colors)[Position(i)..Position(i) + LIGHT_SIZE]
          == shorter[Position(i)..Position(i) + LIGHT_SIZE];
    }
  }

  lemma Pieces(s: seq<Byte>, i: nat, j: nat)
    requires i <= j <= |s|
    ensures s == s[..i] + s[i..j] + s[j..]
  {
  }

  function Overwritten(bytes: seq<Byte>, at: nat, patch: seq<Byte>): seq<Byte>
    requires at + |patch| <= |bytes|
  {
    bytes[..at] + patch + bytes[at + |patch|..]
  }

  /** Overwriting the colour in one slot of the packet changes that light's colour and nothing else. */
  lemma {:induction false} RecolorSlot(ids: seq<int>, colors: seq<Rgb>, i: nat, c: Rgb)
    requires |ids| == |colors| && i < |ids|
    ensures Overwritten(Encode(ids, colors), Position(i) + ID_SIZE, ColorBytes(c)) == Encode(ids, colors[i := c])
  {
    var n, at, color := |ids| - 1, Position(i) + ID_SIZE, ColorBytes(c);
    if i < n {
      var shorter, slot := Encode(ids[..n], colors[..n]), Slot(ids[n], colors[n]);
      LastSlot(ids, colors);
      OverwriteBefore(shorter, slot, at, color);
      RecolorSlot(ids[..n], colors[..n], i, c);
      assert colors[i := c][..n] == colors[..n][i := c];
      LastSlot(ids, colors[i := c]);
    } else {
      RecolorLast(ids, colors, c);
    }
  }

  lemma RecolorLast(ids: seq<int>, colors: seq<Rgb>, c: Rgb)
    requires |ids| == |colors| > 0
    ensures var i := |ids| - 1;
            Overwritten(Encode(ids, colors), Position(i) + ID_SIZE, ColorBytes(c)) == Encode(ids, colors[i := c])
  {
    var n := |ids| - 1;
    var slot := Slot(ids[n], colors[n]);
    LastSlot(ids, colors);
    OverwriteEnd(Encode(ids[..n], colors[..n]), slot, ID_SIZE, ColorBytes(c));
    assert slot[..ID_SIZE] == IdBytes(ids[n]);
    assert colors[n := c][..n] == colors[..n];
    LastSlot(ids, colors[n := c]);
  }

  lemma OverwriteBefore(front: seq<Byte>, back: seq<Byte>, at: nat, patch: seq<Byte>)
    requires at + |patch| <= |front|
    ensures Overwritten(front + back, at, patch) == Overwritten(front, at, patch) + back
  {
    assert (front + back)[..at] == front[..at];
    assert (front + back)[at + |patch|..] == front[at + |patch|..] + back;
  }

  lemma OverwriteEnd(front: seq<Byte>, back: seq<Byte>, k: nat, patch: seq<Byte>)
    requires k + |patch| == |back|
    ensures Overwritten(front + back, |front| + k, patch) == front + (back[..k] + patch)
  {
    assert (front + back)[..|front| + k] == front + back[..k];
  }

  function DecodeId(slot: seq<Byte>): int
    requires |slot| == LIGHT_SIZE
  {
    var msb: int, lsb: int := slot[1], slot[2];
    msb * 0x100 + lsb
  }

  function DecodeColor(slot: seq<Byte>): Rgb
    requires |slot| == LIGHT_SIZE
  {
    Rgb(slot[3], slot[5], slot[7])
  }

  /** Colours decode back; ids do exactly when they fit into sixteen bits. */
  lemma PacketDecodes(ids: seq<int>, colors: seq<Rgb>, i: nat)
    requires |ids| == |colors| && i < |ids|
    ensures var slot := Encode(ids, colors)[Position(i)..Position(i) + LIGHT_SIZE];
            && DecodeColor(slot) == colors[i]
            && (DecodeId(slot) == ids[i] <==> 0 <= ids[i] < 0x1_0000)
  {
    SlotIsAt(ids, colors, i);
  }

  // --- Sequences of calls ---

  datatype Call = Call(light: Byte, color: Rgb)

  /** The colours after a sequence of calls of SetColorRGB. */
  function After(colors: seq<Rgb>, calls: seq<Call>): (c: seq<Rgb>)
    ensures |c| == |colors|
  {
    if calls == [] then colors
    else
      var last := calls[|calls| - 1];
      Recolored(After(colors, calls[..|calls| - 1]), last.light, last.color)
  }

  /** The last call for a light, or -1 if there is none. */
  function LastFor(calls: seq<Call>, i: nat): (k: int)
    ensures -1 <= k < |calls|
    ensures k >= 0 ==> calls[k].light == i
    ensures forall later | k < later < |calls| :: calls[later].light != i
  {
    var last := |calls| - 1;
    if last < 0 || calls[last].light == i then last else LastFor(calls[..last], i)
  }

  /** The colour of a light after the calls. */
  function Shown(calls: seq<Call>, i: nat): Rgb {
    var k := LastFor(calls, i);
    if k < 0 then BLACK else calls[k].color
  }

  /** Each light has the colour of the last call for it, or is black if there was none. */
  lemma {:induction false} LastCallWins(n: nat, calls: seq<Call>, i: nat)
    requires i < n
    ensures After(Blacks(n), calls)[i] == Shown(calls, i)
  {
    var last := |calls| - 1;
    if last >= 0 && calls[last].light != i {
      LastCallWins(n, calls[..last], i);
    }
  }

  /** Nine bytes: type 0, the id and red, green and blue in sixteen bits each, the colours' eight bits stretched from
      0..255 to 0..65535. */
  predicate SlotShows(slot: seq<Byte>, id: int, color: Rgb)
    requires |slot| == 9
  {
    && slot[0] == 0
    && (256 * Int(slot[1]) + Int(slot[2]) == id <==> 0 <= id <= 65535)
    && 256 * Int(slot[3]) + Int(slot[4]) == 257 * color.red
    && 256 * Int(slot[5]) + Int(slot[6]) == 257 * color.green
    && 256 * Int(slot[7]) + Int(slot[8]) == 257 * color.blue
  }

  function Int(b: Byte): int {
    b
  }

  /** "HueStream", version 1.0, and five zeros. */
  predicate HeaderShows(header: seq<Byte>)
    requires |header| == 16
  {
    && (forall k | 0 <= k < 9 :: Int(header[k]) == "HueStream"[k] as int)
    && header[9] == 1 && forall k | 10 <= k < 16 :: header[k] == 0
  }

  /** The packet of a group: sixteen bytes of header and nine for each light. */
  predicate PacketShows(packet: seq<Byte>, ids: seq<int>, colors: seq<Rgb>)
    requires |ids| == |colors|
  {
    && |packet| == 16 + 9 * |ids|
    && HeaderShows(packet[..16])
    && forall i | 0 <= i < |ids| :: SlotShows(packet[16 + 9 * i..25 + 9 * i], ids[i], colors[i])
  }

  lemma SlotIsRead(id: int, color: Rgb)
    ensures SlotShows(Slot(id, color), id, color)
  {
  }

  lemma HeaderIsRead()
    ensures HeaderShows(HEADER)
  {
    var name := "HueStream";
    assert name[0] == 'H' && name[1] == 'u' && name[2] == 'e' && name[3] == 'S' && name[4] == 't'
        && name[5] == 'r' && name[6] == 'e' && name[7] == 'a' && name[8] == 'm';
    forall k | 0 <= k < 9
      ensures Int(HEADER[k]) == name[k] as int
    {
    }
  }

  /** Every byte of the encoding means what it should. */
  lemma EncodingIsRead(ids: seq<int>, colors: seq<Rgb>)
    requires |ids| == |colors|
    ensures PacketShows(Encode(ids, colors), ids, colors)
  {
    var packet := Encode(ids, colors);
    HeaderIsRead();
    assert packet[..16] == HEADER;
    forall i | 0 <= i < |ids|
      ensures SlotShows(packet[16 + 9 * i..25 + 9 * i], ids[i], colors[i])
    {
      SlotIsAt(ids, colors, i);
      SlotIsRead(ids[i], colors[i]);
      assert 16 + 9 * i == Position(i);
    }
  }

  /** Any sequence of calls on any message: every byte of the packet is that of the colours after the calls. */
  method SetColors(m: Message, calls: seq<Call>)
    requires m.Valid()
    modifies m`colors, m.bytes
    ensures m.Valid() && m.colors == After(old(m.colors), calls)
    ensures m.bytes[..] == Encode(m.ids, After(old(m.colors), calls))
    ensures PacketShows(m.bytes[..], m.ids, After(old(m.colors), calls))
  {
    for k := 0 to |calls|
      invariant m.Valid() && m.colors == After(old(m.colors), calls[..k])
    {
      var ok := m.SetColorRGB(calls[k].light, calls[k].color.red, calls[k].color.green, calls[k].color.blue);
      assert calls[..k + 1][..k] == calls[..k];
    }
    assert calls[..|calls|] == calls;
    EncodingIsRead(m.ids, m.colors);
  }

  /** The colours that the last calls ask for, black where there was none. */
  function AllShown(n: nat, calls: seq<Call>): (c: seq<Rgb>)
    ensures |c| == n
  {
    seq(n, i requires 0 <= i < n => Shown(calls, i))
  }

  /** From the construction of a message through any sequence of calls: every byte of the packet, for the lights that
      it has room for. */
  method Stream(lightIds: seq<int>, calls: seq<Call>) returns (m: Message)
    ensures m.Valid() && fresh(m) && m.numLights == |lightIds| % 256
    ensures PacketShows(m.bytes[..], lightIds[..m.numLights], AllShown(m.numLights, calls))
  {
    m := new Message(lightIds);
    SetColors(m, calls);
    forall i | 0 <= i < m.numLights
      ensures m.colors[i] == AllShown(m.numLights, calls)[i]
    {
      LastCallWins(m.numLights, calls, i);
    }
    assert m.colors == AllShown(m.numLights, calls);
  }
}
