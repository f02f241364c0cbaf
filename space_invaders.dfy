/** Space Invaders: the player's cannon, up to three player bullets, the enemy
    bullets and a 5 x 10 formation sweeping left and right (games/space-invaders.js).

    Rectangles are exact reals: bullets fired from the cannon sit at half-pixel
    offsets.  The cannon's own position stays whole. */
module SpaceInvaders {

  import opened Wrappers

  const Width := 800.0
  const Height := 600.0
  const PlayerWidth := 50
  const PlayerHeight := 30
  const BulletSize := 5.0
  const EnemySize := 40.0
  const PlayerSpeed := 5
  const BulletSpeed := 7.0
  const EnemySpeed := 2.0
  const EnemyDrop := 20.0
  /** The cannon's row, `height - playerHeight - 10`. */
  const PlayerY := 560
  /** At most this many player bullets are in flight. */
  const MaxBullets := 3

  datatype Rect = Rect(x: real, y: real, width: real, height: real)

  datatype Key = ArrowLeft | ArrowRight | Space | OtherKey

  /** `isColliding`: a strict overlap test, so rectangles that only touch do not
      collide. */
  predicate IsColliding(a: Rect, b: Rect)
  {
    a.x < b.x + b.width && a.x + a.width > b.x && a.y < b.y + b.height && a.y + a.height > b.y
  }

  /** The overlap test is symmetric and does not count shared edges. */
  lemma CollidingSymmetric(a: Rect, b: Rect)
    ensures IsColliding(a, b) <==> IsColliding(b, a)
    ensures a.x + a.width == b.x ==> !IsColliding(a, b)
    ensures a.y + a.height == b.y ==> !IsColliding(a, b)
  {
  }

  /** The cannon as drawn: `playerWidth` by `playerHeight` at its position. */
  function PlayerRect(x: int): Rect
  {
    Rect(x as real, PlayerY as real, PlayerWidth as real, PlayerHeight as real)
  }

  // ---------------------------------------------------------------------------
  // The collision test as the browser evaluates it

  /** A JavaScript number: a real value or NaN.  Reading a property an object does
      not have gives `undefined`, and arithmetic on `undefined` gives NaN. */
  datatype JsNum = Num(v: real) | NaN

  function JsAdd(a: JsNum, b: JsNum): JsNum
  {
    if a.Num? && b.Num? then Num(a.v + b.v) else NaN
  }

  /** Every comparison involving NaN is false. */
  predicate JsLess(a: JsNum, b: JsNum)
  {
    a.Num? && b.Num? && a.v < b.v
  }

  datatype JsRect = JsRect(x: JsNum, y: JsNum, width: JsNum, height: JsNum)

  function ToJs(r: Rect): JsRect
  {
    JsRect(Num(r.x), Num(r.y), Num(r.width), Num(r.height))
  }

  /** `isColliding` over JavaScript numbers. */
  predicate IsCollidingJs(a: JsRect, b: JsRect)
  {
    JsLess(a.x, JsAdd(b.x, b.width)) && JsLess(b.x, JsAdd(a.x, a.width)) &&
    JsLess(a.y, JsAdd(b.y, b.height)) && JsLess(b.y, JsAdd(a.y, a.height))
  }

  /** On rectangles with real coordinates the browser's test is the overlap test. */
  lemma CollidingJsAgrees(a: Rect, b: Rect)
    ensures IsCollidingJs(ToJs(a), ToJs(b)) <==> IsColliding(a, b)
  {
  }

  /** The `player` object as `checkCollisions` hands it to `isColliding`: it has
      `x` and `y` but no `width` or `height`. */
  function PlayerAsWritten(x: int): JsRect
  {
    JsRect(Num(x as real), Num(PlayerY as real), NaN, NaN)
  }

  /** As written, no enemy bullet can ever hit the player: `rect2.x + rect2.width`
      is NaN, so the first comparison is false whatever the bullet. */
  lemma EnemyBulletsNeverHitAsWritten(b: Rect, x: int)
    ensures !IsCollidingJs(ToJs(b), PlayerAsWritten(x))
  {
  }

  /** An enemy bullet squarely inside the drawn cannon at its starting position:
      the test as written misses it, the test on the drawn rectangle finds it. */
  lemma EnemyBulletMissWitness()
    ensures var b := Rect(390.0, 570.0, BulletSize, BulletSize);
      !IsCollidingJs(ToJs(b), PlayerAsWritten(375)) && IsColliding(b, PlayerRect(375))
  {
  }

  // ---------------------------------------------------------------------------
  // The formation

  /** Enemy `k` of `createEnemies`: row `k / 10`, column `k % 10`, 60 pixels apart,
      starting 100 from the left and 50 from the top. */
  function FormationSlot(k: nat): Rect
  {
    Rect(((k % 10) * 60 + 100) as real, ((k / 10) * 60 + 50) as real, EnemySize, EnemySize)
  }

  /** The 50 enemies, row by row. */
  function Formation(): seq<Rect>
  {
    seq(50, k requires 0 <= k < 50 => FormationSlot(k))
  }

  /** The formation lies inside the screen and above the cannon, and no two of its
      enemies overlap. */
  lemma FormationSpreadOut()
    ensures forall k :: 0 <= k < 50 ==>
      0.0 <= Formation()[k].x && Formation()[k].x + EnemySize <= Width &&
      Formation()[k].y + EnemySize <= PlayerY as real
    ensures forall i, j :: 0 <= i < j < 50 ==> !IsColliding(Formation()[i], Formation()[j])
  {
    forall i, j | 0 <= i < j < 50 ensures !IsColliding(Formation()[i], Formation()[j]) {
      var a, b := FormationSlot(i), FormationSlot(j);
      if i / 10 == j / 10 {
        assert i % 10 < j % 10;
        assert a.x + EnemySize < b.x;
      } else {
        assert i / 10 < j / 10;
        assert a.y + EnemySize < b.y;
      }
    }
  }

  /** Every enemy moved `dx` to the side. */
  function Shifted(es: seq<Rect>, dx: real): seq<Rect>
  {
    seq(|es|, k requires 0 <= k < |es| => es[k].(x := es[k].x + dx))
  }

  /** Every enemy moved `dy` down. */
  function Dropped(es: seq<Rect>, dy: real): seq<Rect>
  {
    seq(|es|, k requires 0 <= k < |es| => es[k].(y := es[k].y + dy))
  }

  /** The march moves the formation rigidly: the opposite shift or drop undoes it,
      and two enemies overlap after it exactly when they overlapped before. */
  lemma MarchIsRigid(es: seq<Rect>, dx: real, dy: real)
    ensures Shifted(Shifted(es, dx), -dx) == es && Dropped(Dropped(es, dy), -dy) == es
    ensures forall i, j :: 0 <= i < |es| && 0 <= j < |es| ==>
      (IsColliding(Shifted(es, dx)[i], Shifted(es, dx)[j]) <==> IsColliding(es[i], es[j])) &&
      (IsColliding(Dropped(es, dy)[i], Dropped(es, dy)[j]) <==> IsColliding(es[i], es[j]))
  {
  }

  /** Some enemy sticks out past the left or right edge. */
  predicate OffSide(es: seq<Rect>)
  {
    exists k :: 0 <= k < |es| && (es[k].x + EnemySize > Width || es[k].x < 0.0)
  }

  /** The bullets the enemies fire, in formation order; `fires[k]` is enemy `k`'s
      random draw falling under `enemyShootChance`. */
  function Volley(es: seq<Rect>, fires: seq<bool>): (r: seq<Rect>)
    requires |fires| == |es|
    ensures |r| <= |es|
  {
    if |es| == 0 then []
    else
      Volley(es[..|es| - 1], fires[..|es| - 1]) +
      (var e := es[|es| - 1];
       if fires[|es| - 1] then [Rect(e.x + EnemySize / 2.0 - BulletSize / 2.0, e.y + EnemySize, BulletSize, BulletSize)]
       else [])
  }

  /** A volley has one bullet per firing enemy, each just below its enemy's centre. */
  lemma {:induction false} VolleyCount(es: seq<Rect>, fires: seq<bool>)
    requires |fires| == |es|
    ensures |Volley(es, fires)| == |set k | 0 <= k < |es| && fires[k]|
    ensures forall b :: b in Volley(es, fires) ==> b.width == BulletSize && b.height == BulletSize
    decreases |es|
  {
    if |es| > 0 {
      var n := |es| - 1;
      VolleyCount(es[..n], fires[..n]);
      var before := set k | 0 <= k < n && fires[..n][k];
      assert (set k | 0 <= k < |es| && fires[k]) == before + (if fires[n] then {n} else {});
    }
  }

  // ---------------------------------------------------------------------------
  // Bullets in flight

  /** The player's bullets after one tick: each moves up `bulletSpeed`, and those
      above the top edge are gone; the rest keep their order. */
  function Rise(bs: seq<Rect>): (r: seq<Rect>)
    ensures |r| <= |bs|
  {
    if |bs| == 0 then []
    else
      var m := bs[0].(y := bs[0].y - BulletSpeed);
      (if m.y < 0.0 then [] else [m]) + Rise(bs[1..])
  }

  /** The enemies' bullets after one tick: each moves down `bulletSpeed`, and those
      below the bottom edge are gone. */
  function Fall(bs: seq<Rect>): (r: seq<Rect>)
    ensures |r| <= |bs|
  {
    if |bs| == 0 then []
    else
      var m := bs[0].(y := bs[0].y + BulletSpeed);
      (if m.y > Height then [] else [m]) + Fall(bs[1..])
  }

  /** A bullet survives a tick exactly when its moved position is still on screen. */
  lemma {:induction false} RiseExact(bs: seq<Rect>, b: Rect)
    ensures b in Rise(bs) <==>
      exists k :: 0 <= k < |bs| && b == bs[k].(y := bs[k].y - BulletSpeed) && b.y >= 0.0
    decreases |bs|
  {
    if |bs| > 0 {
      RiseExact(bs[1..], b);
      assert forall k :: 0 < k < |bs| ==> bs[k] == bs[1..][k - 1];
      if exists k :: 0 <= k < |bs| && b == bs[k].(y := bs[k].y - BulletSpeed) && b.y >= 0.0 {
        var k :| 0 <= k < |bs| && b == bs[k].(y := bs[k].y - BulletSpeed) && b.y >= 0.0;
        if k > 0 {
          assert bs[1..][k - 1] == bs[k];
        }
      }
    }
  }

  lemma RiseSweepStart(bs: seq<Rect>)
    ensures bs == bs[..|bs|] + Rise(bs[|bs|..])
  {
    assert bs[|bs|..] == [];
  }

  lemma RiseSweepEnd(bs: seq<Rect>)
    ensures bs[..0] + Rise(bs[0..]) == Rise(bs)
  {
    assert bs[0..] == bs;
  }

  /** An enemy bullet survives a tick exactly when its moved position is still on
      screen. */
  lemma {:induction false} FallExact(bs: seq<Rect>, b: Rect)
    ensures b in Fall(bs) <==>
      exists k :: 0 <= k < |bs| && b == bs[k].(y := bs[k].y + BulletSpeed) && b.y <= Height
    decreases |bs|
  {
    if |bs| > 0 {
      FallExact(bs[1..], b);
      assert forall k :: 0 < k < |bs| ==> bs[k] == bs[1..][k - 1];
      if exists k :: 0 <= k < |bs| && b == bs[k].(y := bs[k].y + BulletSpeed) && b.y <= Height {
        var k :| 0 <= k < |bs| && b == bs[k].(y := bs[k].y + BulletSpeed) && b.y <= Height;
        if k > 0 {
          assert bs[1..][k - 1] == bs[k];
        }
      }
    }
  }

  /** One step of the backwards sweep over the player's bullets: moving bullet `i`
      and splicing it out if it left the screen extends the processed suffix by one. */
  lemma RiseSplice(bs: seq<Rect>, cur: seq<Rect>, i: nat)
    requires i < |bs| && cur == bs[..i + 1] + Rise(bs[i + 1..])
    ensures i < |cur|
    ensures var moved := cur[i := cur[i].(y := cur[i].y - BulletSpeed)];
      (if moved[i].y < 0.0 then moved[..i] + moved[i + 1..] else moved) == bs[..i] + Rise(bs[i..])
  {
    var prefix, rest := bs[..i], Rise(bs[i + 1..]);
    assert bs[i..][1..] == bs[i + 1..];
    assert bs[..i + 1] == prefix + [bs[i]];
    var moved := cur[i := cur[i].(y := cur[i].y - BulletSpeed)];
    assert moved == prefix + [moved[i]] + rest;
    assert moved[..i] == prefix && moved[i + 1..] == rest;
  }

  lemma FallSweepStart(bs: seq<Rect>)
    ensures bs == bs[..|bs|] + Fall(bs[|bs|..])
  {
    assert bs[|bs|..] == [];
  }

  lemma FallSweepEnd(bs: seq<Rect>)
    ensures bs[..0] + Fall(bs[0..]) == Fall(bs)
  {
    assert bs[0..] == bs;
  }

  /** One step of the backwards sweep over the enemies' bullets. */
  lemma FallSplice(bs: seq<Rect>, cur: seq<Rect>, i: nat)
    requires i < |bs| && cur == bs[..i + 1] + Fall(bs[i + 1..])
    ensures i < |cur|
    ensures var moved := cur[i := cur[i].(y := cur[i].y + BulletSpeed)];
      (if moved[i].y > Height then moved[..i] + moved[i + 1..] else moved) == bs[..i] + Fall(bs[i..])
  {
    var prefix, rest := bs[..i], Fall(bs[i + 1..]);
    assert bs[i..][1..] == bs[i + 1..];
    assert bs[..i + 1] == prefix + [bs[i]];
    var moved := cur[i := cur[i].(y := cur[i].y + BulletSpeed)];
    assert moved == prefix + [moved[i]] + rest;
    assert moved[..i] == prefix && moved[i + 1..] == rest;
  }

  // ---------------------------------------------------------------------------
  // Hits

  /** The last enemy (highest index) a bullet overlaps, which the backwards inner
      scan of `checkCollisions` meets first. */
  function LastHit(b: Rect, es: seq<Rect>): (r: Option<nat>)
    ensures r.Some? ==> r.value < |es|
  {
    if |es| == 0 then None
    else if IsColliding(b, es[|es| - 1]) then Some(|es| - 1)
    else LastHit(b, es[..|es| - 1])
  }

  /** `LastHit` finds an enemy the bullet overlaps, with none after it; it finds
      nothing only when the bullet overlaps no enemy. */
  lemma {:induction false} LastHitExact(b: Rect, es: seq<Rect>)
    ensures var r := LastHit(b, es);
      (r.Some? ==> IsColliding(b, es[r.value]) && forall k :: r.value < k < |es| ==> !IsColliding(b, es[k])) &&
      (r.None? ==> forall k :: 0 <= k < |es| ==> !IsColliding(b, es[k]))
    decreases |es|
  {
    if |es| > 0 && !IsColliding(b, es[|es| - 1]) {
      var init := es[..|es| - 1];
      LastHitExact(b, init);
      assert forall k :: 0 <= k < |init| ==> init[k] == es[k];
    }
  }

  /** The backwards scan of `checkCollisions` computes `LastHit`: stopping at `j`
      (or running out at -1) with no overlap after `j` means `LastHit` is `j`. */
  lemma {:induction false} LastHitScan(b: Rect, es: seq<Rect>, j: int)
    requires -1 <= j < |es|
    requires j >= 0 ==> IsColliding(b, es[j])
    requires forall k :: j < k < |es| ==> !IsColliding(b, es[k])
    ensures LastHit(b, es) == if j >= 0 then Some(j) else None
    decreases |es|
  {
    if |es| > 0 && j < |es| - 1 {
      var init := es[..|es| - 1];
      assert forall k :: 0 <= k < |init| ==> init[k] == es[k];
      LastHitScan(b, init, j);
    }
  }

  datatype Outcome = Outcome(bullets: seq<Rect>, enemies: seq<Rect>, hits: nat)

  /** The first phase of `checkCollisions`: bullets from last to first, each
      removing itself and the last enemy it overlaps. */
  function Resolve(bs: seq<Rect>, es: seq<Rect>): Outcome
    decreases |bs|
  {
    if |bs| == 0 then Outcome(bs, es, 0)
    else
      var b := bs[|bs| - 1];
      match LastHit(b, es)
      case None =>
        var o := Resolve(bs[..|bs| - 1], es);
        Outcome(o.bullets + [b], o.enemies, o.hits)
      case Some(j) =>
        var o := Resolve(bs[..|bs| - 1], es[..j] + es[j + 1..]);
        Outcome(o.bullets, o.enemies, o.hits + 1)
  }

  /** Every hit takes one bullet and one enemy: as many bullets as enemies are
      removed, and that number is the number of hits. */
  lemma {:induction false} ResolvePairs(bs: seq<Rect>, es: seq<Rect>)
    ensures var o := Resolve(bs, es);
      |bs| - |o.bullets| == o.hits && |es| - |o.enemies| == o.hits
    decreases |bs|
  {
    if |bs| > 0 {
      var b := bs[|bs| - 1];
      match LastHit(b, es)
      case None =>
        ResolvePairs(bs[..|bs| - 1], es);
      case Some(j) =>
        ResolvePairs(bs[..|bs| - 1], es[..j] + es[j + 1..]);
    }
  }

  /** Survivors of both kinds are the originals that were not hit, in order: every
      surviving bullet was one of the bullets and every surviving enemy one of the
      enemies. */
  lemma {:induction false} ResolveKeeps(bs: seq<Rect>, es: seq<Rect>)
    ensures multiset(Resolve(bs, es).bullets) <= multiset(bs)
    ensures multiset(Resolve(bs, es).enemies) <= multiset(es)
    decreases |bs|
  {
    if |bs| > 0 {
      var init := bs[..|bs| - 1];
      assert bs == init + [bs[|bs| - 1]];
      match LastHit(bs[|bs| - 1], es)
      case None =>
        ResolveKeeps(init, es);
      case Some(j) =>
        var rest := es[..j] + es[j + 1..];
        ResolveKeeps(init, rest);
        assert es == es[..j] + [es[j]] + es[j + 1..];
    }
  }

  /** The backwards sweep of the first phase has handled the bullets after index
      `i` (of the current `bs`), scoring `hits`; what is left to do completes it to
      `goal`. */
  ghost predicate ShotsPending(bs: seq<Rect>, es: seq<Rect>, i: int, hits: nat, goal: Outcome)
    requires -1 <= i < |bs|
  {
    var o := Resolve(bs[..i + 1], es);
    Outcome(o.bullets + bs[i + 1..], o.enemies, o.hits + hits) == goal
  }

  lemma ShotsStart(bs: seq<Rect>, es: seq<Rect>)
    ensures ShotsPending(bs, es, |bs| - 1, 0, Resolve(bs, es))
  {
    assert bs[..|bs|] == bs && bs[|bs|..] == [];
  }

  lemma ShotsDone(bs: seq<Rect>, es: seq<Rect>, hits: nat, goal: Outcome)
    requires ShotsPending(bs, es, -1, hits, goal)
    ensures bs == goal.bullets && es == goal.enemies && hits == goal.hits
  {
    assert bs[..0] == [] && bs[0..] == bs;
  }

  /** Bullet `i` hits enemy `j`: both are spliced out and the hit is counted. */
  lemma ShotHits(bs: seq<Rect>, es: seq<Rect>, i: nat, j: nat, hits: nat, goal: Outcome)
    requires i < |bs| && ShotsPending(bs, es, i, hits, goal) && LastHit(bs[i], es) == Some(j)
    ensures j < |es|
    ensures ShotsPending(bs[..i] + bs[i + 1..], es[..j] + es[j + 1..], i - 1, hits + 1, goal)
  {
    var upto := bs[..i + 1];
    assert upto[|upto| - 1] == bs[i];
    ResolveOnHit(upto, es, j);
    assert upto[..|upto| - 1] == bs[..i];
    var rest := bs[..i] + bs[i + 1..];
    assert rest[..i] == bs[..i] && rest[i..] == bs[i + 1..];
  }

  /** `Resolve` when the last bullet hits enemy `j`. */
  lemma ResolveOnHit(bs: seq<Rect>, es: seq<Rect>, j: nat)
    requires |bs| > 0 && LastHit(bs[|bs| - 1], es) == Some(j)
    ensures var o := Resolve(bs[..|bs| - 1], es[..j] + es[j + 1..]);
      Resolve(bs, es) == Outcome(o.bullets, o.enemies, o.hits + 1)
  {
  }

  /** Bullet `i` hits nothing: it stays and joins the handled suffix. */
  lemma ShotMisses(bs: seq<Rect>, es: seq<Rect>, i: nat, hits: nat, goal: Outcome)
    requires i < |bs| && ShotsPending(bs, es, i, hits, goal) && LastHit(bs[i], es) == None
    ensures ShotsPending(bs, es, i - 1, hits, goal)
  {
    assert bs[..i + 1][..i] == bs[..i] && bs[..i + 1][i] == bs[i];
    assert bs[i..] == [bs[i]] + bs[i + 1..];
  }

  /** The enemy bullets the sweep of `checkCollisions` leaves, in order, when the
      test is handed `player` as the cannon. */
  function Missed(bs: seq<Rect>, player: JsRect): (r: seq<Rect>)
    ensures |r| <= |bs|
  {
    if |bs| == 0 then []
    else (if IsCollidingJs(ToJs(bs[0]), player) then [] else [bs[0]]) + Missed(bs[1..], player)
  }

  /** Handed the drawn cannon, the sweep leaves an enemy bullet exactly when it was
      there and misses the cannon. */
  lemma {:induction false} MissedExact(bs: seq<Rect>, b: Rect, x: int)
    ensures b in Missed(bs, ToJs(PlayerRect(x))) <==> b in bs && !IsColliding(b, PlayerRect(x))
    decreases |bs|
  {
    if |bs| > 0 {
      MissedExact(bs[1..], b, x);
      CollidingJsAgrees(bs[0], PlayerRect(x));
      assert bs == [bs[0]] + bs[1..];
    }
  }

  /** Handed the `player` object as written, the sweep leaves every enemy bullet. */
  lemma {:induction false} MissedAsWritten(bs: seq<Rect>, x: int)
    ensures Missed(bs, PlayerAsWritten(x)) == bs
    decreases |bs|
  {
    if |bs| > 0 {
      MissedAsWritten(bs[1..], x);
      EnemyBulletsNeverHitAsWritten(bs[0], x);
      assert bs == [bs[0]] + bs[1..];
    }
  }

  lemma MissedSweepStart(bs: seq<Rect>, player: JsRect)
    ensures bs == bs[..|bs|] + Missed(bs[|bs|..], player)
  {
    assert bs[|bs|..] == [];
  }

  lemma MissedSweepEnd(bs: seq<Rect>, player: JsRect)
    ensures bs[..0] + Missed(bs[0..], player) == Missed(bs, player)
  {
    assert bs[0..] == bs;
  }

  /** One step of the backwards sweep over the enemies' bullets against the
      cannon. */
  lemma MissedSplice(bs: seq<Rect>, cur: seq<Rect>, i: nat, player: JsRect)
    requires i < |bs| && cur == bs[..i + 1] + Missed(bs[i + 1..], player)
    ensures i < |cur| && cur[i] == bs[i]
    ensures (if IsCollidingJs(ToJs(cur[i]), player) then cur[..i] + cur[i + 1..] else cur) ==
      bs[..i] + Missed(bs[i..], player)
  {
    var prefix, rest := bs[..i], Missed(bs[i + 1..], player);
    assert bs[i..][1..] == bs[i + 1..];
    assert bs[..i + 1] == prefix + [bs[i]];
    assert cur == prefix + [bs[i]] + rest;
    assert cur[..i] == prefix && cur[i + 1..] == rest;
  }

  /** Some enemy's bottom edge is below the cannon's top edge. */
  predicate Invaded(es: seq<Rect>)
  {
    exists k :: 0 <= k < |es| && es[k].y + es[k].height > PlayerY as real
  }

  class Game {
    var playerX: int
    var leftHeld: bool
    var rightHeld: bool
    var bullets: seq<Rect>
    var enemyBullets: seq<Rect>
    var enemies: seq<Rect>
    /** Points reported through `window.updateScore`. */
    var score: int
    var lives: int
    /** 1 while the formation moves right, -1 while it moves left. */
    var enemyDirection: int
    /** `gameOver()` has been called. */
    var over: bool

    /** The cannon stays on screen on a 5-pixel step, at most three player bullets
        fly, and the formation moves one way or the other. */
    ghost predicate Valid()
      reads this
    {
      0 <= playerX <= 800 - PlayerWidth && playerX % PlayerSpeed == 0 &&
      |bullets| <= MaxBullets && (enemyDirection == 1 || enemyDirection == -1)
    }

    /** The constructor followed by `init`: the cannon centred, no keys held, the
        formation in place, three lives. */
    constructor ()
      ensures Valid()
      ensures playerX == 375 && !leftHeld && !rightHeld
      ensures bullets == [] && enemyBullets == [] && enemies == Formation()
      ensures score == 0 && lives == 3 && enemyDirection == 1 && !over
    {
      playerX := 800 / 2 - PlayerWidth / 2;
      leftHeld, rightHeld := false, false;
      bullets, enemyBullets, enemies := [], [], [];
      score, lives := 0, 3;
      enemyDirection := 1;
      over := false;
      new;
      CreateEnemies();
    }

    /** `createEnemies`: five rows of ten, appended row by row. */
    method CreateEnemies()
      modifies this`enemies
      ensures enemies == old(enemies) + Formation()
    {
      var row := 0;
      while row < 5
        invariant 0 <= row <= 5
        invariant enemies == old(enemies) + Formation()[..row * 10]
      {
        var col := 0;
        while col < 10
          invariant 0 <= col <= 10
          invariant enemies == old(enemies) + Formation()[..row * 10 + col]
        {
          assert Formation()[..row * 10 + col + 1] == Formation()[..row * 10 + col] + [FormationSlot(row * 10 + col)];
          assert (row * 10 + col) % 10 == col && (row * 10 + col) / 10 == row;
          enemies := enemies + [Rect((col * 60 + 100) as real, (row * 60 + 50) as real, EnemySize, EnemySize)];
          col := col + 1;
        }
        row := row + 1;
      }
      assert Formation()[..50] == Formation();
    }

    /** `handleKeyDown`: the arrow keys are held; the space bar fires. */
    method HandleKeyDown(key: Key)
      requires Valid()
      modifies this`leftHeld, this`rightHeld, this`bullets
      ensures Valid()
      ensures leftHeld == (key == ArrowLeft || old(leftHeld))
      ensures rightHeld == (key == ArrowRight || old(rightHeld))
      ensures bullets == if key == Space && |old(bullets)| < MaxBullets
                         then old(bullets) + [Rect(playerX as real + PlayerWidth as real / 2.0 - BulletSize / 2.0, PlayerY as real, BulletSize, BulletSize)]
                         else old(bullets)
      ensures playerX == old(playerX) && enemyBullets == old(enemyBullets) && enemies == old(enemies)
      ensures score == old(score) && lives == old(lives) && over == old(over) && enemyDirection == old(enemyDirection)
    {
      if key == ArrowLeft {
        leftHeld := true;
      } else if key == ArrowRight {
        rightHeld := true;
      }
      if key == Space {
        Shoot();
      }
    }

    /** `handleKeyUp`: an arrow key is released. */
    method HandleKeyUp(key: Key)
      modifies this`leftHeld, this`rightHeld
      ensures leftHeld == (old(leftHeld) && key != ArrowLeft)
      ensures rightHeld == (old(rightHeld) && key != ArrowRight)
    {
      if key == ArrowLeft {
        leftHeld := false;
      } else if key == ArrowRight {
        rightHeld := false;
      }
    }

    /** `shoot`: a bullet from the middle of the cannon, unless three are flying. */
    method Shoot()
      requires Valid()
      modifies this`bullets
      ensures Valid()
      ensures bullets == if |old(bullets)| < MaxBullets
                         then old(bullets) + [Rect(playerX as real + PlayerWidth as real / 2.0 - BulletSize / 2.0, PlayerY as real, BulletSize, BulletSize)]
                         else old(bullets)
    {
      if |bullets| < 3 {
        bullets := bullets + [Rect(playerX as real + PlayerWidth as real / 2.0 - BulletSize / 2.0, PlayerY as real, BulletSize, BulletSize)];
      }
    }

    /** `updatePlayer`: a held left arrow moves the cannon left unless it is at the
        left edge, then a held right arrow moves it right unless it is at the right
        edge. */
    method UpdatePlayer()
      requires Valid()
      modifies this`playerX
      ensures Valid()
      ensures playerX == PlayerStep(old(playerX), leftHeld, rightHeld)
    {
      if leftHeld && playerX > 0 {
        playerX := playerX - PlayerSpeed;
      }
      if rightHeld && playerX < 800 - PlayerWidth {
        playerX := playerX + PlayerSpeed;
      }
    }

    /** `updateBullets`: two backwards sweeps moving each bullet and splicing out
        those that left the screen. */
    method UpdateBullets()
      modifies this`bullets, this`enemyBullets
      ensures bullets == Rise(old(bullets)) && enemyBullets == Fall(old(enemyBullets))
    {
      RaiseBullets();
      DropEnemyBullets();
    }

    /** The sweep over the player's bullets. */
    method RaiseBullets()
      modifies this`bullets
      ensures bullets == Rise(old(bullets))
    {
      ghost var start := bullets;
      var i := |bullets| - 1;
      RiseSweepStart(start);
      while i >= 0
        invariant -1 <= i < |start|
        invariant bullets == start[..i + 1] + Rise(start[i + 1..])
      {
        RiseSplice(start, bullets, i);
        RaiseBullet(i);
        i := i - 1;
      }
      RiseSweepEnd(start);
    }

    /** The body of the sweep: bullet `i` moves up and is spliced out above the top. */
    method RaiseBullet(i: nat)
      requires i < |bullets|
      modifies this`bullets
      ensures var moved := old(bullets)[i := old(bullets)[i].(y := old(bullets)[i].y - BulletSpeed)];
        bullets == if moved[i].y < 0.0 then moved[..i] + moved[i + 1..] else moved
    {
      bullets := bullets[i := bullets[i].(y := bullets[i].y - BulletSpeed)];
      if bullets[i].y < 0.0 {
        bullets := bullets[..i] + bullets[i + 1..];
      }
    }

    /** The sweep over the enemies' bullets. */
    method DropEnemyBullets()
      modifies this`enemyBullets
      ensures enemyBullets == Fall(old(enemyBullets))
    {
      ghost var start := enemyBullets;
      var i := |enemyBullets| - 1;
      FallSweepStart(start);
      while i >= 0
        invariant -1 <= i < |start|
        invariant enemyBullets == start[..i + 1] + Fall(start[i + 1..])
      {
        FallSplice(start, enemyBullets, i);
        DropEnemyBullet(i);
        i := i - 1;
      }
      FallSweepEnd(start);
    }

    /** The body of the sweep: enemy bullet `i` moves down and is spliced out below
        the bottom. */
    method DropEnemyBullet(i: nat)
      requires i < |enemyBullets|
      modifies this`enemyBullets
      ensures var moved := old(enemyBullets)[i := old(enemyBullets)[i].(y := old(enemyBullets)[i].y + BulletSpeed)];
        enemyBullets == if moved[i].y > Height then moved[..i] + moved[i + 1..] else moved
    {
      enemyBullets := enemyBullets[i := enemyBullets[i].(y := enemyBullets[i].y + BulletSpeed)];
      if enemyBullets[i].y > Height {
        enemyBullets := enemyBullets[..i] + enemyBullets[i + 1..];
      }
    }

    /** `updateEnemies`: the whole formation steps sideways; if any enemy then sticks
        out, the direction flips once and the whole formation drops.  Then each enemy
        whose draw says so fires. */
    method UpdateEnemies(fires: seq<bool>)
      requires Valid() && |fires| == |enemies|
      modifies this`enemies, this`enemyDirection, this`enemyBullets
      ensures Valid() && |enemies| == old(|enemies|)
      ensures var moved := Shifted(old(enemies), EnemySpeed * old(enemyDirection) as real);
        if OffSide(moved) then
          enemyDirection == -old(enemyDirection) && enemies == Dropped(moved, EnemyDrop)
        else
          enemyDirection == old(enemyDirection) && enemies == moved
      ensures enemyBullets == old(enemyBullets) + Volley(enemies, fires)
    {
      var needsToDrop := ShiftAll();
      if needsToDrop {
        enemyDirection := enemyDirection * -1;
        DropAll();
      }
      FireVolley(fires);
    }

    /** The sideways step of `updateEnemies`: every enemy moves `enemySpeed` in the
        current direction, and the result says whether any then sticks out. */
    method ShiftAll() returns (needsToDrop: bool)
      modifies this`enemies
      ensures enemies == Shifted(old(enemies), EnemySpeed * enemyDirection as real)
      ensures needsToDrop == OffSide(enemies)
    {
      ghost var start := enemies;
      ghost var moved := Shifted(start, EnemySpeed * enemyDirection as real);
      needsToDrop := false;
      var k := 0;
      while k < |enemies|
        invariant 0 <= k <= |enemies| == |start|
        invariant enemies[..k] == moved[..k]
        invariant enemies[k..] == start[k..]
        invariant needsToDrop <==> OffSide(enemies[..k])
      {
        var e := enemies[k];
        assert e == start[k] && enemies[k + 1..] == start[k + 1..] by {
          assert enemies[k..][0] == start[k..][0];
          assert enemies[k + 1..] == enemies[k..][1..] && start[k + 1..] == start[k..][1..];
        }
        enemies := enemies[k := e.(x := e.x + EnemySpeed * enemyDirection as real)];
        assert enemies[..k + 1] == enemies[..k] + [enemies[k]];
        if enemies[k].x + EnemySize > Width || enemies[k].x < 0.0 {
          needsToDrop := true;
        }
        k := k + 1;
      }
      assert enemies == enemies[..k];
    }

    /** The drop of `updateEnemies`: every enemy moves `enemyDrop` down. */
    method DropAll()
      modifies this`enemies
      ensures enemies == Dropped(old(enemies), EnemyDrop)
    {
      var k := 0;
      while k < |enemies|
        invariant 0 <= k <= |enemies| == |old(enemies)|
        invariant forall m :: 0 <= m < k ==> enemies[m] == old(enemies)[m].(y := old(enemies)[m].y + EnemyDrop)
        invariant forall m :: k <= m < |enemies| ==> enemies[m] == old(enemies)[m]
      {
        enemies := enemies[k := enemies[k].(y := enemies[k].y + EnemyDrop)];
        k := k + 1;
      }
    }

    /** The firing loop of `updateEnemies`. */
    method FireVolley(fires: seq<bool>)
      requires |fires| == |enemies|
      modifies this`enemyBullets
      ensures enemyBullets == old(enemyBullets) + Volley(enemies, fires)
    {
      var k := 0;
      while k < |enemies|
        invariant 0 <= k <= |enemies|
        invariant enemyBullets == old(enemyBullets) + Volley(enemies[..k], fires[..k])
      {
        assert enemies[..k + 1][..k] == enemies[..k] && fires[..k + 1][..k] == fires[..k];
        var e := enemies[k];
        if fires[k] {
          enemyBullets := enemyBullets + [Rect(e.x + EnemySize / 2.0 - BulletSize / 2.0, e.y + EnemySize, BulletSize, BulletSize)];
        }
        k := k + 1;
      }
      assert enemies[..k] == enemies && fires[..k] == fires;
    }

    /** `checkCollisions`: bullets against enemies, enemy bullets against the cannon,
        and the formation against the cannon's row.  The enemy bullets are tested
        against the cannon as drawn; handed the `player` object as written, that
        phase removes nothing (`MissedAsWritten`). */
    method CheckCollisions()
      requires Valid()
      modifies this`bullets, this`enemies, this`enemyBullets, this`score, this`lives, this`over
      ensures Valid()
      ensures var o := Resolve(old(bullets), old(enemies));
        bullets == o.bullets && enemies == o.enemies && score == old(score) + 100 * o.hits
      ensures enemyBullets == Missed(old(enemyBullets), ToJs(PlayerRect(playerX)))
      ensures var lost := |old(enemyBullets)| - |enemyBullets|;
        lives == old(lives) - lost &&
        over == (old(over) || (lost > 0 && lives <= 0) || Invaded(enemies))
      ensures |enemies| <= old(|enemies|) && score >= old(score) && lives <= old(lives)
    {
      ShootDown();
      HitPlayer(ToJs(PlayerRect(playerX)));
      CheckInvasion();
      ResolvePairs(old(bullets), old(enemies));
    }

    /** The first phase: for each bullet from the last, the backwards scan of the
        enemies stops at the first one it overlaps and both are spliced out. */
    method ShootDown()
      requires Valid()
      modifies this`bullets, this`enemies, this`score
      ensures Valid()
      ensures var o := Resolve(old(bullets), old(enemies));
        bullets == o.bullets && enemies == o.enemies && score == old(score) + 100 * o.hits
    {
      ghost var goal, score0 := Resolve(bullets, enemies), score;
      var i := |bullets| - 1;
      ghost var hits := 0;
      ShotsStart(bullets, enemies);
      while i >= 0
        invariant -1 <= i < |bullets|
        invariant score == score0 + 100 * hits
        invariant ShotsPending(bullets, enemies, i, hits, goal)
      {
        var j := |enemies| - 1;
        while j >= 0
          invariant -1 <= j < |enemies|
          invariant forall k :: j < k < |enemies| ==> !IsColliding(bullets[i], enemies[k])
        {
          if IsColliding(bullets[i], enemies[j]) {
            break;
          }
          j := j - 1;
        }
        LastHitScan(bullets[i], enemies, j);
        if j >= 0 {
          ShotHits(bullets, enemies, i, j, hits, goal);
          bullets := bullets[..i] + bullets[i + 1..];
          enemies := enemies[..j] + enemies[j + 1..];
          score := score + 100;
          hits := hits + 1;
        } else {
          ShotMisses(bullets, enemies, i, hits, goal);
        }
        i := i - 1;
      }
      ShotsDone(bullets, enemies, hits, goal);
      ResolvePairs(old(bullets), old(enemies));
    }

    /** The second phase: each enemy bullet the test finds on `player` is spliced
        out and costs a life; the game is over once lives reach zero.  `player` is
        the object the test is handed: `PlayerAsWritten(playerX)` as the source has
        it, `ToJs(PlayerRect(playerX))` for the cannon as drawn. */
    method HitPlayer(player: JsRect)
      modifies this`enemyBullets, this`lives, this`over
      ensures enemyBullets == Missed(old(enemyBullets), player)
      ensures var lost := |old(enemyBullets)| - |enemyBullets|;
        lives == old(lives) - lost && over == (old(over) || (lost > 0 && lives <= 0))
    {
      ghost var start, lives0, over0 := enemyBullets, lives, over;
      var i := |enemyBullets| - 1;
      MissedSweepStart(start, player);
      while i >= 0
        invariant -1 <= i < |start|
        invariant enemyBullets == start[..i + 1] + Missed(start[i + 1..], player)
        invariant var lost := |start| - |enemyBullets|;
          lives == lives0 - lost && over == (over0 || (lost > 0 && lives <= 0))
      {
        MissedSplice(start, enemyBullets, i, player);
        if IsCollidingJs(ToJs(enemyBullets[i]), player) {
          enemyBullets := enemyBullets[..i] + enemyBullets[i + 1..];
          lives := lives - 1;
          if lives <= 0 {
            over := true;
          }
        }
        i := i - 1;
      }
      MissedSweepEnd(start, player);
    }

    /** The third phase: any enemy reaching below the cannon's top ends the game,
        whatever the lives. */
    method CheckInvasion()
      modifies this`over
      ensures over == (old(over) || Invaded(enemies))
    {
      var k := 0;
      while k < |enemies|
        invariant 0 <= k <= |enemies|
        invariant over == (old(over) || Invaded(enemies[..k]))
      {
        assert enemies[..k + 1] == enemies[..k] + [enemies[k]];
        if enemies[k].y + enemies[k].height > PlayerY as real {
          over := true;
        }
        k := k + 1;
      }
      assert enemies[..k] == enemies;
    }

    /** `update`: the cannon, the bullets, the formation (with one draw per enemy),
        then the collisions. */
    method Update(fires: seq<bool>)
      requires Valid() && |fires| == |enemies|
      modifies this
      ensures Valid()
      ensures |enemies| <= old(|enemies|) && score >= old(score) && lives <= old(lives)
      ensures old(over) ==> over
    {
      ghost var enemyCount, oldScore, oldLives, wasOver := |enemies|, score, lives, over;
      UpdatePlayer();
      UpdateBullets();
      assert Valid();
      UpdateEnemies(fires);
      assert |enemies| == enemyCount && score == oldScore && lives == oldLives && over == wasOver;
      CheckCollisions();
    }
  }

  /** The cannon's step: left first, then right, each only away from its edge. */
  function PlayerStep(x: int, left: bool, right: bool): int
  {
    var x1 := if left && x > 0 then x - PlayerSpeed else x;
    if right && x1 < 800 - PlayerWidth then x1 + PlayerSpeed else x1
  }

  /** From any position on the 5-pixel grid between the edges, the cannon stays on
      the grid between the edges, and moves at most one step. */
  lemma PlayerStaysOnScreen(x: int, left: bool, right: bool)
    requires 0 <= x <= 800 - PlayerWidth && x % PlayerSpeed == 0
    ensures var x' := PlayerStep(x, left, right);
      0 <= x' <= 800 - PlayerWidth && x' % PlayerSpeed == 0 && -PlayerSpeed <= x' - x <= PlayerSpeed
  {
  }
}
