/** The drawing arithmetic of Graphics.cpp: pivot offsets, the four-vertex
    quad, scale/rotate/translate, texture coordinates and text placement.
    Floats are exact reals; the sine and cosine of the rotation angle are
    inputs, since sinf/cosf are not modelled. */
module Drawing {
  import opened Common
  import Colours
  import Textures

  /** PivotType of EngineConstant.h, in declaration order. */
  datatype PivotType =
    LeftTop | CenterTop | RightTop | LeftCenter | CenterCenter | RightCenter | LeftBottom | CenterBottom | RightBottom

  /** The enumerator's value. */
  function Ordinal(p: PivotType): (n: nat)
    ensures n < 9
  {
    match p
    case LeftTop => 0 case CenterTop => 1 case RightTop => 2
    case LeftCenter => 3 case CenterCenter => 4 case RightCenter => 5
    case LeftBottom => 6 case CenterBottom => 7 case RightBottom => 8
  }

  datatype Vec2 = Vec2(x: real, y: real)
  datatype Size = Size(width: real, height: real)

  /** Where the pivot sits on the rectangle, as fractions of its width and
      height: left/centre/right and top/centre/bottom are 0, ½ and 1. */
  function PivotFraction(p: PivotType): (f: Vec2)
    ensures 0.0 <= f.x <= 1.0 && 0.0 <= f.y <= 1.0
  {
    match p
    case LeftTop => Vec2(0.0, 0.0) case CenterTop => Vec2(0.5, 0.0) case RightTop => Vec2(1.0, 0.0)
    case LeftCenter => Vec2(0.0, 0.5) case CenterCenter => Vec2(0.5, 0.5) case RightCenter => Vec2(1.0, 0.5)
    case LeftBottom => Vec2(0.0, 1.0) case CenterBottom => Vec2(0.5, 1.0) case RightBottom => Vec2(1.0, 1.0)
  }

  /** The enumerators are laid out row by row: the column is the value mod 3
      and the row the value div 3, each counted in halves of the extent. */
  lemma PivotFractionIsGrid(p: PivotType)
    ensures PivotFraction(p) == Vec2((Ordinal(p) % 3) as real / 2.0, (Ordinal(p) / 3) as real / 2.0)
  {
  }

  /** Graphics::CalculatePivotOffset: the table, entry by entry. Each entry
      moves the rectangle back by the pivot's fraction of its extent. */
  function CalculatePivotOffset(pivot: PivotType, size: Size): (r: Vec2)
    ensures r.x == -size.width * PivotFraction(pivot).x
    ensures r.y == -size.height * PivotFraction(pivot).y
  {
    match pivot
    case LeftTop => Vec2(0.0, 0.0)
    case CenterTop => Vec2(-size.width / 2.0, 0.0)
    case RightTop => Vec2(-size.width, 0.0)
    case LeftCenter => Vec2(0.0, -size.height / 2.0)
    case CenterCenter => Vec2(-size.width / 2.0, -size.height / 2.0)
    case RightCenter => Vec2(-size.width, -size.height / 2.0)
    case LeftBottom => Vec2(0.0, -size.height)
    case CenterBottom => Vec2(-size.width / 2.0, -size.height)
    case RightBottom => Vec2(-size.width, -size.height)
  }

  /** A CustomVertex; Z (0) and Rhw (1) are the same for every vertex drawn
      and are left out. */
  datatype Vertex = Vertex(x: real, y: real, color: bv32, u: real, v: real)

  /** Texture coordinates of the rectangle's left/right and top/bottom edges. */
  datatype UvRect = UvRect(left: real, top: real, right: real, bottom: real)

  const FullUv := UvRect(0.0, 0.0, 1.0, 1.0)

  /** The graphics state the drawing calls read: the current pivot and
      which of the three font sizes have a font object. */
  datatype Graphics = Graphics(pivot: PivotType, fonts: seq<bool>)
  {
    predicate Valid()
    {
      |fonts| == 3
    }
  }

  /** Graphics::SetPivotType: only the pivot changes. */
  function SetPivotType(g: Graphics, pivot: PivotType): (r: Graphics)
    ensures r.pivot == pivot && r.fonts == g.fonts
  {
    g.(pivot := pivot)
  }

  /** The quad as first laid out: (0,0), (w,0), (w,h), (0,h), in triangle-fan order. */
  function BaseQuad(size: Size, color: bv32, uv: UvRect): (q: seq<Vertex>)
    ensures |q| == 4
    ensures Position(q[0]) == Vec2(0.0, 0.0) && Position(q[1]) == Vec2(size.width, 0.0)
    ensures Position(q[2]) == Vec2(size.width, size.height) && Position(q[3]) == Vec2(0.0, size.height)
    ensures forall i :: 0 <= i < 4 ==> q[i].color == color
    ensures q[0].u == q[3].u == uv.left && q[1].u == q[2].u == uv.right
    ensures q[0].v == q[1].v == uv.top && q[2].v == q[3].v == uv.bottom
  {
    [ Vertex(0.0, 0.0, color, uv.left, uv.top),
      Vertex(size.width, 0.0, color, uv.right, uv.top),
      Vertex(size.width, size.height, color, uv.right, uv.bottom),
      Vertex(0.0, size.height, color, uv.left, uv.bottom) ]
  }

  /** Each vertex moved by the pivot offset. */
  function ApplyOffset(q: seq<Vertex>, offset: Vec2): (r: seq<Vertex>)
    ensures |r| == |q|
    ensures forall i :: 0 <= i < |q| ==>
      r[i] == q[i].(x := q[i].x + offset.x, y := q[i].y + offset.y)
  {
    seq(|q|, i requires 0 <= i < |q| => q[i].(x := q[i].x + offset.x, y := q[i].y + offset.y))
  }

  /** The quad after the offset spans [off.x, off.x + w] × [off.y, off.y + h]. */
  lemma OffsetQuadSpan(size: Size, color: bv32, uv: UvRect, off: Vec2)
    ensures var q := ApplyOffset(BaseQuad(size, color, uv), off);
      && q[0].x == off.x && q[0].y == off.y
      && q[1].x == off.x + size.width && q[1].y == off.y
      && q[2].x == off.x + size.width && q[2].y == off.y + size.height
      && q[3].x == off.x && q[3].y == off.y + size.height
  {
  }

  /** Under RightBottom the bottom-right vertex (index 2) lands on the origin,
      under LeftTop the top-left one (index 0) does. */
  lemma CornerPivotsAtOrigin(size: Size, color: bv32, uv: UvRect)
    ensures var q := ApplyOffset(BaseQuad(size, color, uv), CalculatePivotOffset(RightBottom, size));
      q[2].x == 0.0 && q[2].y == 0.0
    ensures var q := ApplyOffset(BaseQuad(size, color, uv), CalculatePivotOffset(LeftTop, size));
      q[0].x == 0.0 && q[0].y == 0.0
  {
  }

  /** The sine and cosine of the rotation angle. */
  datatype Rotation = Rotation(sin: real, cos: real)

  /** Angle 0: sin 0 = 0, cos 0 = 1. */
  const NoRotation := Rotation(0.0, 1.0)

  /** A point through Graphics::TransformRect: scale, then rotate, then translate. */
  function TransformPoint(p: Vec2, posX: real, posY: real, rot: Rotation, scaleX: real, scaleY: real): Vec2
  {
    var sx := p.x * scaleX;
    var sy := p.y * scaleY;
    Vec2(sx * rot.cos + sy * -rot.sin + posX, sx * rot.sin + sy * rot.cos + posY)
  }

  /** The position of a vertex. */
  function Position(v: Vertex): Vec2
  {
    Vec2(v.x, v.y)
  }

  /** One vertex through Graphics::TransformRect: only its position moves. */
  function TransformVertex(v: Vertex, posX: real, posY: real, rot: Rotation, scaleX: real, scaleY: real): (r: Vertex)
    ensures r.color == v.color && r.u == v.u && r.v == v.v
    ensures Position(r) == TransformPoint(Position(v), posX, posY, rot, scaleX, scaleY)
  {
    var p := TransformPoint(Position(v), posX, posY, rot, scaleX, scaleY);
    v.(x := p.x, y := p.y)
  }

  /** Graphics::TransformRect over the four vertices. */
  function TransformRect(q: seq<Vertex>, posX: real, posY: real, rot: Rotation, scaleX: real, scaleY: real): (r: seq<Vertex>)
    ensures |r| == |q|
    ensures forall i :: 0 <= i < |q| ==> r[i] == TransformVertex(q[i], posX, posY, rot, scaleX, scaleY)
  {
    seq(|q|, i requires 0 <= i < |q| => TransformVertex(q[i], posX, posY, rot, scaleX, scaleY))
  }

  /** With angle 0 each vertex goes to (X·sx + pos_x, Y·sy + pos_y). */
  lemma UnrotatedTransform(q: seq<Vertex>, posX: real, posY: real, scaleX: real, scaleY: real)
    ensures forall i :: 0 <= i < |q| ==>
      && TransformRect(q, posX, posY, NoRotation, scaleX, scaleY)[i].x == q[i].x * scaleX + posX
      && TransformRect(q, posX, posY, NoRotation, scaleX, scaleY)[i].y == q[i].y * scaleY + posY
  {
  }

  /** With scale 1 the transform is a rotation plus a translation, so when
      sin² + cos² = 1 it keeps the distance between any two vertices. */
  lemma TransformKeepsDistances(a: Vertex, b: Vertex, posX: real, posY: real, rot: Rotation)
    requires rot.sin * rot.sin + rot.cos * rot.cos == 1.0
    ensures var ta := TransformVertex(a, posX, posY, rot, 1.0, 1.0);
      var tb := TransformVertex(b, posX, posY, rot, 1.0, 1.0);
      (ta.x - tb.x) * (ta.x - tb.x) + (ta.y - tb.y) * (ta.y - tb.y)
        == (a.x - b.x) * (a.x - b.x) + (a.y - b.y) * (a.y - b.y)
  {
  }

  /** The point at fractions (fx, fy) along the edges a→b and a→d. */
  function Mix(a: Vec2, b: Vec2, d: Vec2, fx: real, fy: real): Vec2
  {
    Vec2(a.x + fx * (b.x - a.x) + fy * (d.x - a.x), a.y + fx * (b.y - a.y) + fy * (d.y - a.y))
  }

  /** The point at fractions (fx, fy) across the quad, measured along its
      first edge (vertex 0 to 1) and its last edge (vertex 0 to 3). */
  function PointOnQuad(q: seq<Vertex>, fx: real, fy: real): Vec2
    requires |q| == 4
  {
    Mix(Position(q[0]), Position(q[1]), Position(q[3]), fx, fy)
  }

  /** The vertices DrawRect, DrawTexture and DrawTextureUV hand to the device:
      the quad laid out, offset by the current pivot, then transformed. */
  function PlaceQuad(g: Graphics, size: Size, color: bv32, uv: UvRect,
                     x: real, y: real, rot: Rotation, scaleX: real, scaleY: real): (q: seq<Vertex>)
    ensures |q| == 4
    ensures forall i :: 0 <= i < 4 ==> q[i].color == color
    ensures q[0].u == uv.left && q[0].v == uv.top && q[2].u == uv.right && q[2].v == uv.bottom
  {
    TransformRect(ApplyOffset(BaseQuad(size, color, uv), CalculatePivotOffset(g.pivot, size)), x, y, rot, scaleX, scaleY)
  }

  /** Scale-and-rotate-and-translate is affine, so its X coordinate maps the
      point at fractions (fx, fy) along two edges to the point at the same
      fractions along the images of those edges ... */
  lemma TransformAffineX(a: Vec2, b: Vec2, d: Vec2, fx: real, fy: real,
                         posX: real, posY: real, rot: Rotation, scaleX: real, scaleY: real)
    ensures TransformPoint(Mix(a, b, d, fx, fy), posX, posY, rot, scaleX, scaleY).x
         == Mix(TransformPoint(a, posX, posY, rot, scaleX, scaleY), TransformPoint(b, posX, posY, rot, scaleX, scaleY),
                TransformPoint(d, posX, posY, rot, scaleX, scaleY), fx, fy).x
  {
  }

  /** ... and so does its Y coordinate. */
  lemma TransformAffineY(a: Vec2, b: Vec2, d: Vec2, fx: real, fy: real,
                         posX: real, posY: real, rot: Rotation, scaleX: real, scaleY: real)
    ensures TransformPoint(Mix(a, b, d, fx, fy), posX, posY, rot, scaleX, scaleY).y
         == Mix(TransformPoint(a, posX, posY, rot, scaleX, scaleY), TransformPoint(b, posX, posY, rot, scaleX, scaleY),
                TransformPoint(d, posX, posY, rot, scaleX, scaleY), fx, fy).y
  {
  }

  /** Transforming the quad and then taking a point on it is the same as
      transforming that point. */
  lemma TransformKeepsQuadPoints(q: seq<Vertex>, fx: real, fy: real,
                                 posX: real, posY: real, rot: Rotation, scaleX: real, scaleY: real)
    requires |q| == 4
    ensures PointOnQuad(TransformRect(q, posX, posY, rot, scaleX, scaleY), fx, fy)
         == TransformPoint(PointOnQuad(q, fx, fy), posX, posY, rot, scaleX, scaleY)
  {
    var a, b, d := Position(q[0]), Position(q[1]), Position(q[3]);
    TransformAffineX(a, b, d, fx, fy, posX, posY, rot, scaleX, scaleY);
    TransformAffineY(a, b, d, fx, fy, posX, posY, rot, scaleX, scaleY);
  }

  /** A quad laid out at size w × h and moved back by (w·fx, h·fy) has its
      point at fractions (fx, fy) on the origin. */
  lemma FractionPointAtOrigin(size: Size, color: bv32, uv: UvRect, off: Vec2, fx: real, fy: real)
    requires off.x == -size.width * fx && off.y == -size.height * fy
    ensures PointOnQuad(ApplyOffset(BaseQuad(size, color, uv), off), fx, fy) == Vec2(0.0, 0.0)
  {
    var q := ApplyOffset(BaseQuad(size, color, uv), off);
    OffsetQuadSpan(size, color, uv, off);
    assert q[1].x - q[0].x == size.width && q[3].x - q[0].x == 0.0;
    assert q[1].y - q[0].y == 0.0 && q[3].y - q[0].y == size.height;
  }

  /** Before the transform, the pivot point of the offset quad is the origin. */
  lemma PivotPointAtOrigin(pivot: PivotType, size: Size, color: bv32, uv: UvRect)
    ensures PointOnQuad(ApplyOffset(BaseQuad(size, color, uv), CalculatePivotOffset(pivot, size)),
                        PivotFraction(pivot).x, PivotFraction(pivot).y) == Vec2(0.0, 0.0)
  {
    // Per pivot the fraction is a constant, which keeps the arithmetic linear.
    var off, f := CalculatePivotOffset(pivot, size), PivotFraction(pivot);
    match pivot {
      case LeftTop => FractionPointAtOrigin(size, color, uv, off, f.x, f.y);
      case CenterTop => FractionPointAtOrigin(size, color, uv, off, f.x, f.y);
      case RightTop => FractionPointAtOrigin(size, color, uv, off, f.x, f.y);
      case LeftCenter => FractionPointAtOrigin(size, color, uv, off, f.x, f.y);
      case CenterCenter => FractionPointAtOrigin(size, color, uv, off, f.x, f.y);
      case RightCenter => FractionPointAtOrigin(size, color, uv, off, f.x, f.y);
      case LeftBottom => FractionPointAtOrigin(size, color, uv, off, f.x, f.y);
      case CenterBottom => FractionPointAtOrigin(size, color, uv, off, f.x, f.y);
      case RightBottom => FractionPointAtOrigin(size, color, uv, off, f.x, f.y);
    }
  }

  /** Whatever the angle and scale, the pivot point of the drawn rectangle
      lands on the position passed to the draw call. */
  lemma PivotLandsOnPosition(g: Graphics, size: Size, color: bv32, uv: UvRect,
                             x: real, y: real, rot: Rotation, scaleX: real, scaleY: real)
    ensures PointOnQuad(PlaceQuad(g, size, color, uv, x, y, rot, scaleX, scaleY),
                        PivotFraction(g.pivot).x, PivotFraction(g.pivot).y) == Vec2(x, y)
  {
    var laid := ApplyOffset(BaseQuad(size, color, uv), CalculatePivotOffset(g.pivot, size));
    var f := PivotFraction(g.pivot);
    TransformKeepsQuadPoints(laid, f.x, f.y, x, y, rot, scaleX, scaleY);
    PivotPointAtOrigin(g.pivot, size, color, uv);
  }

  /** Graphics::DrawRect: alpha packed into the colour, texture coordinates
      spanning the whole unit square. */
  function DrawRect(g: Graphics, x: real, y: real, width: real, height: real, color: bv32, alpha: bv8,
                    rot: Rotation, scaleX: real, scaleY: real): (q: seq<Vertex>)
    ensures |q| == 4
    ensures forall i :: 0 <= i < 4 ==>
      Colours.RgbOf(q[i].color) == Colours.RgbOf(color)
      && Colours.AlphaOf(q[i].color) == (Colours.AlphaOf(color) + alpha as bv32) & 0xFF
    ensures q[0].u == 0.0 && q[0].v == 0.0 && q[1].u == 1.0 && q[1].v == 0.0
    ensures q[2].u == 1.0 && q[2].v == 1.0 && q[3].u == 0.0 && q[3].v == 1.0
    ensures PointOnQuad(q, PivotFraction(g.pivot).x, PivotFraction(g.pivot).y) == Vec2(x, y)
  {
    PivotLandsOnPosition(g, Size(width, height), Colours.PackAlpha(color, alpha), FullUv, x, y, rot, scaleX, scaleY);
    PlaceQuad(g, Size(width, height), Colours.PackAlpha(color, alpha), FullUv, x, y, rot, scaleX, scaleY)
  }

  /** A draw call that looked up a texture: nothing drawn because the
      keyword is missing, a quad, or texture coordinates that divide by a
      zero texture extent and so are not finite. */
  datatype TextureDraw = NotDrawn | Drawn(quad: seq<Vertex>) | NonFiniteUv

  /** The colour of textured quads: white with the given alpha. */
  function TintWith(alpha: bv8): (c: bv32)
    ensures Colours.AlphaOf(c) == alpha as bv32 && Colours.RgbOf(c) == 0xFF_FFFF
  {
    Colours.Rgba(0xFF, 0xFF, 0xFF, alpha as bv32)
  }

  /** Graphics::DrawTexture: the whole texture at its own size. */
  function DrawTexture(g: Graphics, tm: Textures.TextureManager, keyword: CStr, x: real, y: real, alpha: bv8,
                       rot: Rotation, scaleX: real, scaleY: real): (r: TextureDraw)
    ensures r.NotDrawn? <==> keyword !in tm.textures
    ensures !r.NonFiniteUv?
    ensures r.Drawn? ==>
      && |r.quad| == 4
      && (forall i :: 0 <= i < 4 ==> r.quad[i].color == TintWith(alpha))
      && r.quad[0].u == 0.0 && r.quad[0].v == 0.0 && r.quad[2].u == 1.0 && r.quad[2].v == 1.0
    ensures r.Drawn? ==>
      var t := tm.textures[keyword];
      r.quad == PlaceQuad(g, Size(t.width as real, t.height as real), TintWith(alpha), FullUv, x, y, rot, scaleX, scaleY)
  {
    match Textures.GetTexture(tm, keyword)
    case Nothing => NotDrawn
    case Some(t) =>
      Drawn(PlaceQuad(g, Size(t.width as real, t.height as real), TintWith(alpha), FullUv, x, y, rot, scaleX, scaleY))
  }

  /** Texel coordinates start and start + extent as fractions of the texture's size. */
  function TexelsToUv(start: real, extent: real, textureSize: int): (r: (real, real))
    requires textureSize != 0
    ensures r.0 * textureSize as real == start
    ensures r.1 * textureSize as real == start + extent
  {
    (start / textureSize as real, (start + extent) / textureSize as real)
  }

  /** A positive extent gives ordered coordinates, and a sprite covering the
      texture from 0 gives exactly [0, 1]. */
  lemma TexelsToUvOrdered(start: real, extent: real, textureSize: int)
    requires textureSize > 0
    ensures extent >= 0.0 ==> TexelsToUv(start, extent, textureSize).0 <= TexelsToUv(start, extent, textureSize).1
    ensures TexelsToUv(0.0, textureSize as real, textureSize) == (0.0, 1.0)
  {
    var r := TexelsToUv(start, extent, textureSize);
    var n := textureSize as real;
    assert r.1 - r.0 == extent / n;
    assert (0.0 + n) / n == 1.0;
  }

  /** The texture coordinates of a sprite cut from texture `t`. */
  function SpriteUv(t: Textures.Texture, texX: real, texY: real, spriteWidth: real, spriteHeight: real): (uv: UvRect)
    requires t.width != 0 && t.height != 0
    ensures uv.left * t.width as real == texX && uv.right * t.width as real == texX + spriteWidth
    ensures uv.top * t.height as real == texY && uv.bottom * t.height as real == texY + spriteHeight
  {
    var us := TexelsToUv(texX, spriteWidth, t.width);
    var vs := TexelsToUv(texY, spriteHeight, t.height);
    UvRect(us.0, vs.0, us.1, vs.1)
  }

  /** Graphics::DrawTextureUV: a sprite cut from the texture. */
  function DrawTextureUV(g: Graphics, tm: Textures.TextureManager, keyword: CStr, x: real, y: real,
                         texX: real, texY: real, spriteWidth: real, spriteHeight: real, alpha: bv8,
                         rot: Rotation, scaleX: real, scaleY: real): (r: TextureDraw)
    ensures r.NotDrawn? <==> keyword !in tm.textures
    ensures r.NonFiniteUv? <==>
      keyword in tm.textures && (tm.textures[keyword].width == 0 || tm.textures[keyword].height == 0)
    ensures r.Drawn? ==>
      var t := tm.textures[keyword];
      && |r.quad| == 4
      && r.quad[0].u * t.width as real == texX && r.quad[0].v * t.height as real == texY
      && r.quad[2].u * t.width as real == texX + spriteWidth
      && r.quad[2].v * t.height as real == texY + spriteHeight
    ensures r.Drawn? ==>
      var t := tm.textures[keyword];
      && t.width != 0 && t.height != 0
      && r.quad == PlaceQuad(g, Size(spriteWidth, spriteHeight), TintWith(alpha),
                             SpriteUv(t, texX, texY, spriteWidth, spriteHeight), x, y, rot, scaleX, scaleY)
  {
    match Textures.GetTexture(tm, keyword)
    case Nothing => NotDrawn
    case Some(t) =>
      if t.width == 0 || t.height == 0 then NonFiniteUv
      else
        Drawn(PlaceQuad(g, Size(spriteWidth, spriteHeight), TintWith(alpha),
                        SpriteUv(t, texX, texY, spriteWidth, spriteHeight), x, y, rot, scaleX, scaleY))
  }

  /** FontSize and FontColor of EngineConstant.h. */
  datatype FontSize = Small | Regular | Large
  datatype FontColor = Black | White | Red

  function FontIndex(s: FontSize): (i: nat)
    ensures i < 3
  {
    match s
    case Small => 0
    case Regular => 1
    case Large => 2
  }

  /** C's conversion of a float to `long`: truncation toward zero. */
  function TruncateToLong(x: real): (n: int)
    ensures x >= 0.0 ==> n as real <= x < n as real + 1.0
    ensures x < 0.0 ==> n as real - 1.0 < x <= n as real
  {
    if x >= 0.0 then x.Floor else -((-x).Floor)
  }

  /** The text rectangle's left, top, right and bottom. */
  datatype Rect = Rect(left: int, top: int, right: int, bottom: int)

  /** What DrawFont hands to ID3DXFont::DrawText. */
  datatype TextDraw = TextDraw(rect: Rect, color: bv32)

  /** The red, green and blue of a font colour. */
  function FontRgb(c: FontColor): (rgb: (bv32, bv32, bv32))
    ensures c == Black ==> rgb == (0, 0, 0)
    ensures c == Red ==> rgb == (255, 0, 0)
    ensures c == White ==> rgb == (255, 255, 255)
  {
    match c
    case Black => (0, 0, 0)
    case Red => (255, 0, 0)
    case White => (255, 255, 255)
  }

  /** Graphics::DrawFont: nothing without a font of that size; otherwise an
      800 × 300 box at the truncated position, in an opaque colour. */
  function DrawFont(g: Graphics, x: real, y: real, size: FontSize, color: FontColor): (r: Option<TextDraw>)
    requires g.Valid()
    ensures r.Some? <==> g.fonts[FontIndex(size)]
    ensures r.Some? ==>
      && r.value.rect.left == TruncateToLong(x) && r.value.rect.top == TruncateToLong(y)
      && r.value.rect.right - r.value.rect.left == 800
      && r.value.rect.bottom - r.value.rect.top == 300
      && Colours.AlphaOf(r.value.color) == 0xFF
      && (Colours.RedOf(r.value.color), Colours.GreenOf(r.value.color), Colours.BlueOf(r.value.color)) == FontRgb(color)
  {
    if !g.fonts[FontIndex(size)] then Nothing
    else
      var left := TruncateToLong(x);
      var top := TruncateToLong(y);
      var rgb := FontRgb(color);
      Some(TextDraw(Rect(left, top, left + 800, top + 300), Colours.Xrgb(rgb.0, rgb.1, rgb.2)))
  }
}
