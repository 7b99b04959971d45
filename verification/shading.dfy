/** `Renderer::PixelShading`: the colour of one covered pixel from its
    interpolated shading vertex, the four texture maps and the light mode. */
module Shading {
  import opened Geometry
  import opened Mesh

  /** In enum order: `ObservedArea`, `Diffuse`, `Specular`, `Combined`. */
  datatype LightMode = ObservedArea | Diffuse | Specular | Combined

  const LightDirection := Vec3(0.577, -0.577, 0.577)
  const LightIntensity: real := 7.0
  const Shininess: real := 25.0
  const Ambient := Gray(0.025)

  /** Everything `PixelShading` reads besides the vertex. The four maps are
      `Texture::Sample` on the loaded textures; `cross`, `axes` (the
      `TransformVector` of the matrix with the given x, y, z axes and zero
      translation), `pow` and `pi` belong to the math library, which is not
      part of this model. */
  datatype ShadingContext = ShadingContext(
    diffuseMap: Vec2 -> Color,
    normalMap: Vec2 -> Color,
    specularMap: Vec2 -> Color,
    glossMap: Vec2 -> Color,
    cross: (Vec3, Vec3) -> Vec3,
    axes: (Vec3, Vec3, Vec3, Vec3) -> Vec3,
    pow: (real, real) -> real,
    pi: real,
    usingNormalMap: bool,
    lightMode: LightMode)

  /** `2 * c - {1, 1, 1}`: a normal-map texel read as a direction. */
  function UnpackNormal(c: Color): (n: Vec3)
    ensures UnitColor(c) ==> -1.0 <= n.x <= 1.0 && -1.0 <= n.y <= 1.0 && -1.0 <= n.z <= 1.0
    ensures c == Gray(0.5) ==> n == Vec3(0.0, 0.0, 0.0)
  {
    Vec3(2.0 * c.r - 1.0, 2.0 * c.g - 1.0, 2.0 * c.b - 1.0)
  }

  /** The normal the lighting uses: the interpolated one, or with the normal
      map on, the map's direction taken from tangent space to world space. */
  function ShadingNormal(v: VertexOut, ctx: ShadingContext): Vec3 {
    if ctx.usingNormalMap then
      var binormal := ctx.cross(v.normal, v.tangent);
      ctx.axes(v.tangent, binormal, v.normal, UnpackNormal(ctx.normalMap(v.uv)))
    else v.normal
  }

  /** The Lambert term `(lightIntensity * diffuse) / PI`. */
  function Lambert(v: VertexOut, ctx: ShadingContext): Color
    requires ctx.pi != 0.0
  {
    var d := ctx.diffuseMap(v.uv);
    Color(LightIntensity * d.r / ctx.pi, LightIntensity * d.g / ctx.pi, LightIntensity * d.b / ctx.pi)
  }

  /** `observedArea`: the cosine-like term `Dot(normal, -lightDirection)`. */
  function ObservedAreaOf(v: VertexOut, ctx: ShadingContext): real {
    Dot3(ShadingNormal(v, ctx), Neg3(LightDirection))
  }

  /** The Phong term: the specular map scaled by the clamped dot of the
      reflected light with the view direction raised to the glossiness times
      the shininess. */
  function Phong(v: VertexOut, ctx: ShadingContext): Color {
    var normal := ShadingNormal(v, ctx);
    var reflection := Sub3(LightDirection, Scale3(normal, 2.0 * Dot3(normal, LightDirection)));
    var dotReflectionView := Max(0.0, Dot3(reflection, v.viewDirection));
    ScaleColor(ctx.specularMap(v.uv), ctx.pow(dotReflectionView, ctx.glossMap(v.uv).r * Shininess))
  }

  /** The pixel colour. A surface facing away from the light is black in
      every mode; otherwise the mode picks the term. */
  function PixelShading(v: VertexOut, ctx: ShadingContext): (c: Color)
    requires ctx.pi != 0.0
    ensures ObservedAreaOf(v, ctx) < 0.0 ==> c == Black
    ensures ObservedAreaOf(v, ctx) >= 0.0 && ctx.lightMode == ObservedArea ==> c == Gray(ObservedAreaOf(v, ctx))
    ensures ObservedAreaOf(v, ctx) >= 0.0 && ctx.lightMode == Diffuse ==> c == ScaleColor(Lambert(v, ctx), ObservedAreaOf(v, ctx))
    ensures ObservedAreaOf(v, ctx) >= 0.0 && ctx.lightMode == Specular ==> c == Phong(v, ctx)
    ensures ObservedAreaOf(v, ctx) >= 0.0 && ctx.lightMode == Combined ==>
      c == ScaleColor(AddColor(AddColor(Lambert(v, ctx), Phong(v, ctx)), Ambient), ObservedAreaOf(v, ctx))
  {
    var observedArea := ObservedAreaOf(v, ctx);
    if observedArea < 0.0 then Black
    else
      match ctx.lightMode
      case ObservedArea => Gray(observedArea)
      case Diffuse => ScaleColor(Lambert(v, ctx), observedArea)
      case Specular => Phong(v, ctx)
      case Combined => ScaleColor(AddColor(AddColor(Lambert(v, ctx), Phong(v, ctx)), Ambient), observedArea)
  }

  /** The combined mode is the sum of the diffuse mode, the specular term
      and the ambient term, the last two weighted by the observed area like
      the first. */
  lemma CombinedIsSumOfParts(v: VertexOut, ctx: ShadingContext)
    requires ctx.pi != 0.0 && ctx.lightMode == Combined && ObservedAreaOf(v, ctx) >= 0.0
    ensures var a := ObservedAreaOf(v, ctx);
      PixelShading(v, ctx) ==
        AddColor(AddColor(PixelShading(v, ctx.(lightMode := Diffuse)), ScaleColor(Phong(v, ctx), a)), ScaleColor(Ambient, a))
  {
    var a := ObservedAreaOf(v, ctx);
    var l, p := Lambert(v, ctx), Phong(v, ctx);
    assert PixelShading(v, ctx.(lightMode := Diffuse)) == ScaleColor(l, a);
    ScaleDistributes(l, p, Ambient, a);
  }

  lemma ScaleDistributes(x: Color, y: Color, z: Color, s: real)
    ensures ScaleColor(AddColor(AddColor(x, y), z), s) ==
      AddColor(AddColor(ScaleColor(x, s), ScaleColor(y, s)), ScaleColor(z, s))
  {
    Distribute3(x.r, y.r, z.r, s);
    Distribute3(x.g, y.g, z.g, s);
    Distribute3(x.b, y.b, z.b, s);
  }

  lemma Distribute3(x: real, y: real, z: real, s: real)
    ensures (x + y + z) * s == x * s + y * s + z * s
  {
  }

  /** The diffuse mode weights the Lambert term by the observed area, so a
      surface edge-on to the light is black in it. */
  lemma DiffuseVanishesEdgeOn(v: VertexOut, ctx: ShadingContext)
    requires ctx.pi != 0.0 && ctx.lightMode == Diffuse && ObservedAreaOf(v, ctx) == 0.0
    ensures PixelShading(v, ctx) == Black
  {
  }

  /** With the normal map off the normal map is never read: two contexts that
      differ only in it shade every vertex alike. */
  lemma NormalMapIgnoredWhenOff(v: VertexOut, ctx: ShadingContext, other: Vec2 -> Color)
    requires ctx.pi != 0.0 && !ctx.usingNormalMap
    ensures PixelShading(v, ctx.(normalMap := other)) == PixelShading(v, ctx)
  {
  }

  /** A surface whose normal points straight back at the light (the light
      direction's components are 0.577, so its length is not exactly one)
      has an observed area of 3 * 0.577^2 = 0.998787, not 1. */
  lemma ObservedAreaFacingLight(v: VertexOut, ctx: ShadingContext)
    requires ctx.pi != 0.0 && !ctx.usingNormalMap && ctx.lightMode == ObservedArea
    requires v.normal == Neg3(LightDirection)
    ensures PixelShading(v, ctx) == Gray(0.998787)
  {
  }

  /** The observed-area mode always shows a non-negative grey. */
  lemma ObservedAreaIsGray(v: VertexOut, ctx: ShadingContext)
    requires ctx.pi != 0.0 && ctx.lightMode == ObservedArea
    ensures var c := PixelShading(v, ctx); c.r == c.g == c.b && c.r >= 0.0
  {
  }
}
