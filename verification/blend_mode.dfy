/** `BlendMode` and the fixed-function blending each mode selects in
    `ObjectRenderer.Draw`: `glBlendFunc(src, dst)` makes every colour channel
    `src_colour * weight(src) + dst_colour * weight(dst)`. */
module Blending {
  import opened Gl

  datatype BlendMode = Shadow | AlphaBlending

  /** The factor pair `Draw` hands to `glBlendFunc`, as the code writes it. The
      AlphaBlending source factor is `GlNone`, numerically GL_ZERO. */
  function Factors(m: BlendMode): (r: (int, int))
    ensures r.1 == ONE_MINUS_SRC_ALPHA
    ensures r.0 == ZERO
  {
    match m
    case Shadow => (ZERO, ONE_MINUS_SRC_ALPHA)
    case AlphaBlending => (NONE, ONE_MINUS_SRC_ALPHA)
  }

  /** The premultiplied-alpha factors the comment above the AlphaBlending case
      names, and the pair the face renderer uses. */
  const PremultipliedFactors: (int, int) := (ONE, ONE_MINUS_SRC_ALPHA)

  /** Whether the mode writes depth: the Shadow pass does not, AlphaBlending does. */
  function WritesDepth(m: BlendMode): bool {
    m == AlphaBlending
  }

  predicate IsFactor(f: int) {
    f == ZERO || f == ONE || f == ONE_MINUS_SRC_ALPHA
  }

  /** The weight a blend factor gives, from the incoming fragment's alpha. */
  function Weight(f: int, srcAlpha: real): real
    requires IsFactor(f)
  {
    if f == ZERO then 0.0 else if f == ONE then 1.0 else 1.0 - srcAlpha
  }

  /** One colour channel after blending the incoming `src` over the stored `dst`. */
  function BlendChannel(factors: (int, int), src: real, srcAlpha: real, dst: real): real
    requires IsFactor(factors.0) && IsFactor(factors.1)
  {
    src * Weight(factors.0, srcAlpha) + dst * Weight(factors.1, srcAlpha)
  }

  /** The Shadow pass ignores the shadow texture's colour and darkens what is
      already drawn by the texture's alpha: alpha 0 leaves it, alpha 1 blacks it out. */
  lemma ShadowDarkens(src: real, srcAlpha: real, dst: real)
    requires 0.0 <= srcAlpha <= 1.0 && 0.0 <= dst
    ensures BlendChannel(Factors(Shadow), src, srcAlpha, dst) == dst * (1.0 - srcAlpha)
    ensures 0.0 <= BlendChannel(Factors(Shadow), src, srcAlpha, dst) <= dst
  {
    var keep := 1.0 - srcAlpha;
    assert 0.0 <= keep <= 1.0;
    assert dst - dst * keep == dst * srcAlpha;
    MulNonNegative(dst, srcAlpha);
    MulNonNegative(dst, keep);
  }

  lemma MulNonNegative(x: real, y: real)
    requires 0.0 <= x && 0.0 <= y
    ensures 0.0 <= x * y
  {
  }

  /** With the premultiplied factors blending is the "over" operator: an opaque
      fragment replaces the stored colour, a fully transparent one (colour and
      alpha zero) leaves it. */
  lemma PremultipliedOver(src: real, srcAlpha: real, dst: real)
    ensures BlendChannel(PremultipliedFactors, src, srcAlpha, dst) == src + dst * (1.0 - srcAlpha)
    ensures srcAlpha == 1.0 ==> BlendChannel(PremultipliedFactors, src, srcAlpha, dst) == src
    ensures src == 0.0 && srcAlpha == 0.0 ==> BlendChannel(PremultipliedFactors, src, srcAlpha, dst) == dst
  {
  }

  /** AlphaBlending as written drops the fragment's colour, like Shadow: an opaque
      white fragment over black comes out black, where the premultiplied factors
      give white. */
  lemma AlphaBlendingDropsSource(src: real, srcAlpha: real, dst: real)
    ensures BlendChannel(Factors(AlphaBlending), src, srcAlpha, dst) == dst * (1.0 - srcAlpha)
    ensures BlendChannel(Factors(AlphaBlending), src, srcAlpha, dst) == BlendChannel(Factors(Shadow), src, srcAlpha, dst)
    ensures BlendChannel(Factors(AlphaBlending), 1.0, 1.0, 0.0) == 0.0
    ensures BlendChannel(PremultipliedFactors, 1.0, 1.0, 0.0) == 1.0
  {
  }
}
