/**
 * The part of the Roam outline a click writes to: the ordered children of the
 * clicked block's parent (`pushBullets`, and the clearing of the clicked block
 * in `clickEventListener`, src/index.ts). A block is identified here by its
 * position among its siblings; `updateBlock` and `createBlock` are modelled as
 * the edits they make to the list of sibling texts, one after the other.
 */
module Outline {
  import opened Handlers

  /** `s` with `text` inserted so that it ends up at index `order`. */
  function InsertAt(s: seq<string>, order: nat, text: string): (r: seq<string>)
    requires order <= |s|
    ensures |r| == |s| + 1 && r[order] == text
    ensures r[..order] == s[..order] && r[order + 1..] == s[order..]
  {
    s[..order] + [text] + s[order..]
  }

  /**
   * The creations of `pushBullets`, one after the other: item i is created at
   * index `start + i`, so the items end up as one run starting at `start`.
   */
  function Creations(s: seq<string>, start: nat, items: seq<string>): (r: seq<string>)
    requires start <= |s|
    ensures r == s[..start] + items + s[start..]
    decreases |items|
  {
    if items == [] then s
    else
      var s' := InsertAt(s, start, items[0]);
      assert s'[..start + 1] == s[..start] + [items[0]];
      assert [items[0]] + items[1..] == items;
      Creations(s', start + 1, items[1..])
  }

  /**
   * `pushBullets(bullets)` on the block at index `order`: the block's text
   * becomes the first bullet, then bullet i + 1 is created at `order + i + 1`.
   * Together the clicked block is replaced by the whole run of bullets.
   */
  function Pushed(s: seq<string>, order: nat, bullets: seq<string>): (r: seq<string>)
    requires order < |s| && |bullets| >= 1
    ensures r == s[..order] + bullets + s[order + 1..]
  {
    var t := s[order := bullets[0]];
    assert t[..order + 1] == s[..order] + [bullets[0]];
    assert t[order + 1..] == s[order + 1..];
    assert [bullets[0]] + bullets[1..] == bullets;
    Creations(t, order + 1, bullets[1..])
  }

  /**
   * Where everything ends up: bullet k at `order + k`, the siblings before the
   * block where they were, the siblings after it shifted by the number of new
   * blocks, so every other sibling keeps its text and relative order.
   */
  lemma PushedPlacement(s: seq<string>, order: nat, bullets: seq<string>)
    requires order < |s| && |bullets| >= 1
    ensures |Pushed(s, order, bullets)| == |s| + |bullets| - 1
    ensures Pushed(s, order, bullets)[order] == bullets[0]
    ensures forall k :: 0 <= k < |bullets| ==> Pushed(s, order, bullets)[order + k] == bullets[k]
    ensures forall j :: 0 <= j < order ==> Pushed(s, order, bullets)[j] == s[j]
    ensures forall j :: order < j < |s| ==> Pushed(s, order, bullets)[j + |bullets| - 1] == s[j]
    ensures var r := Pushed(s, order, bullets); r[..order] + r[order + |bullets|..] == s[..order] + s[order + 1..]
  {
    Spliced(s, order, bullets, Pushed(s, order, bullets));
  }

  /** Where the elements of `s` with its element at `order` replaced by `bullets` are. */
  lemma Spliced(s: seq<string>, order: nat, bullets: seq<string>, r: seq<string>)
    requires order < |s| && |bullets| >= 1
    requires r == s[..order] + bullets + s[order + 1..]
    ensures |r| == |s| + |bullets| - 1
    ensures r[order] == bullets[0]
    ensures forall k :: 0 <= k < |bullets| ==> r[order + k] == bullets[k]
    ensures forall j :: 0 <= j < order ==> r[j] == s[j]
    ensures forall j :: order < j < |s| ==> r[j + |bullets| - 1] == s[j]
    ensures r[..order] + r[order + |bullets|..] == s[..order] + s[order + 1..]
  {
    assert r[..order] == s[..order];
    assert r[order + |bullets|..] == s[order + 1..];
  }

  /**
   * What a click leaves: the block is cleared, then the handler's outcome is
   * applied. Only the clicked block changes (or is replaced by the bullets).
   */
  function Clicked(s: seq<string>, order: nat, outcome: Outcome): (r: seq<string>)
    requires order < |s|
    requires outcome.Push? ==> |outcome.bullets| >= 1
    ensures outcome.Write? ==> r == s[order := outcome.text]
    ensures outcome.Push? ==> r == s[..order] + outcome.bullets + s[order + 1..]
    ensures outcome.Failed? ==> r == s[order := ""]
  {
    match outcome
    case Write(text) => s[order := ""][order := text]
    case Push(bullets) =>
      assert s[order := ""][..order] == s[..order] && s[order := ""][order + 1..] == s[order + 1..];
      Pushed(s[order := ""], order, bullets)
    case Failed => s[order := ""]
  }

  /**
   * The clearing shows only when the request failed: otherwise the block ends
   * up holding the handler's message or its first bullet.
   */
  lemma ClickOverwritesClearing(s: seq<string>, order: nat, outcome: Outcome)
    requires order < |s|
    requires outcome.Push? ==> |outcome.bullets| >= 1
    ensures |Clicked(s, order, outcome)| == |s| + (if outcome.Push? then |outcome.bullets| - 1 else 0)
    ensures Clicked(s, order, outcome)[order]
         == match outcome
            case Write(text) => text
            case Push(bullets) => bullets[0]
            case Failed => ""
  {
  }

  /** The children of one parent block, by their texts in order. */
  class Children {
    var texts: seq<string>

    constructor (texts: seq<string>)
      ensures this.texts == texts
    {
      this.texts := texts;
    }

    /** `updateBlock`: the block at `order` gets `text`. */
    method UpdateBlock(order: nat, text: string)
      requires order < |texts|
      modifies this
      ensures texts == old(texts)[order := text]
    {
      texts := texts[order := text];
    }

    /** `createBlock` under this parent at `order`. */
    method CreateBlock(order: nat, text: string)
      requires order <= |texts|
      modifies this
      ensures texts == InsertAt(old(texts), order, text)
    {
      texts := texts[..order] + [text] + texts[order..];
    }

    /** `pushBullets`: overwrite the block at `order`, then create the rest below it. */
    method PushBullets(bullets: seq<string>, order: nat)
      requires |bullets| >= 1 && order < |texts|
      modifies this
      ensures texts == Pushed(old(texts), order, bullets)
      ensures texts == old(texts)[..order] + bullets + old(texts)[order + 1..]
    {
      ghost var s := texts;
      UpdateBlock(order, bullets[0]);
      for i := 0 to |bullets| - 1
        invariant texts == s[..order] + bullets[..i + 1] + s[order + 1..]
      {
        CreateBlock(order + i + 1, bullets[i + 1]);
        assert bullets[..i + 2] == bullets[..i + 1] + [bullets[i + 1]];
      }
      assert bullets[..|bullets|] == bullets;
    }

    /**
     * A click on the button in the block at `order`: the block is cleared,
     * then the handler's outcome is written; after a failed request it stays
     * cleared.
     */
    method Click(order: nat, outcome: Outcome)
      requires order < |texts|
      requires outcome.Push? ==> |outcome.bullets| >= 1
      modifies this
      ensures texts == Clicked(old(texts), order, outcome)
    {
      UpdateBlock(order, "");
      match outcome
      case Write(text) =>
        UpdateBlock(order, text);
      case Push(bullets) =>
        PushBullets(bullets, order);
      case Failed =>
    }
  }
}
