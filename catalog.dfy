/**
  The scene catalog of the story intro: a constant, ordered table of six scenes.
  Each scene carries an id, a location caption, the lines the typewriter reveals,
  and two image URLs that the playback logic never inspects.
 */
module Catalog {

  /**
    An image the scene shows, identified by its photo id on the stock-image host.
    The playback logic never looks inside it.
   */
  datatype Asset = Pexels(photoId: nat)

  /** One narrative scene. The optional character animation is opaque pass-through data and is not kept. */
  datatype Scene = Scene(
    id: int,
    location: string,
    text: seq<string>,
    background: Asset,
    character: Asset)

  // Each scene is its own function so that a proof about one scene unfolds only that scene's literal.

  function Scene1(): (sc: Scene)
    ensures sc.id == 1 && |sc.text| == 3 && HasText(sc)
  {
    Scene(1, "Galaksi Luar - Planet Smoketron",
      [ "Di sudut jauh galaksi…",
        "Tersembunyi sebuah dunia yang hampir terlupakan — Smoketron.",
        "Planet yang dulunya penuh cahaya… kini redup, retak, dan nyaris tak bernyawa." ],
      Pexels(5738242),
      Pexels(5476414))
  }

  function Scene2(): (sc: Scene)
    ensures sc.id == 2 && |sc.text| == 4 && HasText(sc)
  {
    Scene(2, "Laboratorium Smoketron",
      [ "Para ilmuwan telah mengerahkan segala daya.",
        "Tapi hanya satu jawaban yang tersisa…",
        "Etherion.",
        "Partikel langka — sumber energi tertinggi di alam semesta." ],
      Pexels(8100784),
      Pexels(6153354))
  }

  function Scene3(): (sc: Scene)
    ensures sc.id == 3 && |sc.text| == 4 && HasText(sc)
  {
    Scene(3, "Pusat Kendali Sinyal",
      [ "Suatu hari…",
        "Sebuah sinyal muncul dari kejauhan.",
        "Titik biru kecil…",
        "Di dalam jaringan yang disebut oleh mereka... BASE." ],
      Pexels(6153354),
      Pexels(8731639))
  }

  function Scene4(): (sc: Scene)
    ensures sc.id == 4 && |sc.text| == 3 && HasText(sc)
  {
    Scene(4, "Orbit Planet Bumi",
      [ "Planet biru.",
        "Berisi jejak-jejak Etherion tersebar di dalam aktivitas digital yang hidup.",
        "Tapi... misi ini tidak bisa dilakukan oleh siapa pun." ],
      Pexels(87651),
      Pexels(8728388))
  }

  function Scene5(): (sc: Scene)
    ensures sc.id == 5 && |sc.text| == 5 && HasText(sc)
  {
    Scene(5, "Stasiun Peluncuran",
      [ "Maka… seseorang diutus.",
        "Sebuah perjalanan tanpa peta.",
        "Tanpa jaminan kembali.",
        "Hanya mereka yang berani dan cukup penasaran akan tahu...",
        "apa yang sebenarnya sedang dipertaruhkan." ],
      Pexels(7672252),
      Pexels(8100784))
  }

  function Scene6(): (sc: Scene)
    ensures sc.id == 6 && |sc.text| == 3 && HasText(sc)
  {
    Scene(6, "Transmisi Akhir",
      [ "⚡️ Jika kamu membaca ini, kamu sudah menjadi bagian dari sinyal itu.",
        "🚪 Gerbang misi akan segera dibuka.",
        "🛰️ Hanya mereka yang terdaftar dalam relay channel yang akan mendapat akses pertama." ],
      Pexels(7672252),
      Pexels(6153354))
  }

  /**
    The story's scene table, in display order: six scenes with ids 1..6, every
    one of them with at least one line and no empty line.
   */
  function Scenes(): (cat: seq<Scene>)
    ensures |cat| == 6 && WellFormed(cat)
  {
    [Scene1(), Scene2(), Scene3(), Scene4(), Scene5(), Scene6()]
  }

  /** Ids run 1, 2, ..., n in array order. */
  predicate IdsContiguous(cat: seq<Scene>)
  {
    forall i :: 0 <= i < |cat| ==> cat[i].id == i + 1
  }

  /** Every scene has at least one line, and no line is empty. */
  predicate HasText(sc: Scene)
  {
    |sc.text| > 0 && forall j :: 0 <= j < |sc.text| ==> |sc.text[j]| > 0
  }

  /** A catalog the playback controller can run over. */
  predicate WellFormed(cat: seq<Scene>)
  {
    |cat| > 0 && IdsContiguous(cat) && forall i :: 0 <= i < |cat| ==> HasText(cat[i])
  }

  /**
    The branch that chooses the final-scene layout (activation button, no
    per-line typewriter callback). With ids 1..n it selects exactly the scene
    whose id is n.
   */
  predicate IsFinalScene(cat: seq<Scene>, index: int)
    ensures IdsContiguous(cat) && 0 <= index < |cat| ==>
      (IsFinalScene(cat, index) <==> cat[index].id == |cat|)
  {
    index == |cat| - 1
  }

  /** The largest id in the catalog (0 for an empty one). */
  function MaxId(cat: seq<Scene>): (m: int)
    ensures forall i :: 0 <= i < |cat| ==> cat[i].id <= m
    ensures |cat| > 0 ==> exists i :: 0 <= i < |cat| && cat[i].id == m
  {
    if |cat| == 0 then 0
    else
      var rest := MaxId(cat[..|cat| - 1]);
      var last := cat[|cat| - 1].id;
      if |cat| == 1 || last >= rest then last else rest
  }

  /** Contiguous ids are strictly ascending, hence unique, and each id locates its own scene. */
  lemma IdsAscending(cat: seq<Scene>, i: int, j: int)
    requires IdsContiguous(cat)
    requires 0 <= i < |cat| && 0 <= j < |cat|
    ensures i < j <==> cat[i].id < cat[j].id
    ensures i == j <==> cat[i].id == cat[j].id
  {
  }

  /** With contiguous ids the largest id is the catalog size. */
  lemma {:induction false} MaxIdIsSize(cat: seq<Scene>)
    requires IdsContiguous(cat)
    ensures MaxId(cat) == |cat|
  {
    if |cat| > 0 {
      var prefix := cat[..|cat| - 1];
      assert IdsContiguous(prefix) by {
        forall i | 0 <= i < |prefix| ensures prefix[i].id == i + 1 {
          assert prefix[i] == cat[i];
        }
      }
      MaxIdIsSize(prefix);
    }
  }

  /** The final-scene branch selects exactly the scene whose id is the largest: the terminal scene, and there is exactly one. */
  lemma FinalSceneHasMaxId(cat: seq<Scene>, i: int)
    requires WellFormed(cat)
    requires 0 <= i < |cat|
    ensures IsFinalScene(cat, i) <==> cat[i].id == MaxId(cat)
  {
    MaxIdIsSize(cat);
  }
}
