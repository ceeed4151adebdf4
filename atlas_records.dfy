/**
 * The records of AtlasHandler.cs: the placement rectangle stored per sprite, the metadata document
 * persisted beside an atlas, and the System.Drawing rectangle a placement is converted to.
 */
module AtlasRecords {
  import opened Wrappers

  /** A sprite's top-left corner and original (unpadded) size inside the atlas. */
  datatype SpriteRect = SpriteRect(x: int, y: int, width: int, height: int)

  /** System.Drawing.Rectangle, as far as cropping uses it. */
  datatype Rectangle = Rectangle(x: int, y: int, width: int, height: int)

  /**
   * The metadata document read back by unstitch. `sprites` is None when the document says
   * `"sprites": null`; a document without the key keeps the initialiser's empty map.
   */
  datatype AtlasMetadata = AtlasMetadata(image: string, sprites: Option<map<string, SpriteRect>>)

  /** The property names the JSON attributes give the four fields of a SpriteRect. */
  const FieldX := "x"
  const FieldY := "y"
  const FieldWidth := "width"
  const FieldHeight := "height"

  /** SpriteRect.ToRectangle: a field-for-field copy. */
  function ToRectangle(r: SpriteRect): (rect: Rectangle)
    ensures rect.x == r.x && rect.y == r.y && rect.width == r.width && rect.height == r.height
  {
    Rectangle(r.x, r.y, r.width, r.height)
  }

  /** Converting two placements gives the same rectangle only when the placements are equal. */
  lemma ToRectangleInjective(a: SpriteRect, b: SpriteRect)
    requires ToRectangle(a) == ToRectangle(b)
    ensures a == b
  {
  }

  /** The name/value pairs a SpriteRect is written as, in declaration order. */
  function Persisted(r: SpriteRect): (fields: seq<(string, int)>)
    ensures |fields| == 4
    ensures fields[0].0 == FieldX && fields[1].0 == FieldY
    ensures fields[2].0 == FieldWidth && fields[3].0 == FieldHeight
  {
    [(FieldX, r.x), (FieldY, r.y), (FieldWidth, r.width), (FieldHeight, r.height)]
  }

  /**
   * The value the deserializer binds to property `key`: the last pair with that exact
   * (case-sensitive) name, and the property's default 0 when none has it.
   */
  function Lookup(fields: seq<(string, int)>, key: string): (v: int)
    ensures (forall i :: 0 <= i < |fields| ==> fields[i].0 != key) ==> v == 0
    ensures (exists i :: 0 <= i < |fields| && fields[i].0 == key) ==> (key, v) in fields
  {
    if |fields| == 0 then 0
    else if fields[|fields| - 1].0 == key then fields[|fields| - 1].1
    else Lookup(fields[..|fields| - 1], key)
  }

  /**
   * Reading a SpriteRect back from its name/value pairs: each field is a value stored under its
   * own name, or 0 when no pair has that name.
   */
  function ReadRect(fields: seq<(string, int)>): (r: SpriteRect)
    ensures (FieldX, r.x) in fields || (r.x == 0 && forall i :: 0 <= i < |fields| ==> fields[i].0 != FieldX)
    ensures (FieldY, r.y) in fields || (r.y == 0 && forall i :: 0 <= i < |fields| ==> fields[i].0 != FieldY)
    ensures (FieldWidth, r.width) in fields || (r.width == 0 && forall i :: 0 <= i < |fields| ==> fields[i].0 != FieldWidth)
    ensures (FieldHeight, r.height) in fields || (r.height == 0 && forall i :: 0 <= i < |fields| ==> fields[i].0 != FieldHeight)
  {
    SpriteRect(Lookup(fields, FieldX), Lookup(fields, FieldY),
               Lookup(fields, FieldWidth), Lookup(fields, FieldHeight))
  }

  /** What is written is what is read: the four field names are distinct. */
  lemma PersistedRoundTrip(r: SpriteRect)
    ensures ReadRect(Persisted(r)) == r
  {
    var f := Persisted(r);
    assert Lookup(f, FieldX) == r.x by {
      assert f[..3][..2][..1] == [(FieldX, r.x)];
    }
    assert Lookup(f, FieldY) == r.y by {
      assert f[..3][..2] == [(FieldX, r.x), (FieldY, r.y)];
    }
    assert Lookup(f, FieldWidth) == r.width by {
      assert f[..3] == [(FieldX, r.x), (FieldY, r.y), (FieldWidth, r.width)];
    }
  }
}
