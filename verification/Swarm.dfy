/** internal/swarm/client.go and image.go: the actual state and image references. */
module Swarm {

  /** A service as it runs in the swarm. */
  datatype ActualService = ActualService(
    name: string,
    image: string,
    mode: string,
    desiredReplicas: int,
    runningReplicas: int,
    configs: seq<string>,
    secrets: seq<string>,
    updateState: string)

  datatype ActualState = ActualState(services: map<string, ActualService>)

  const DIGEST_MARK := "@sha256:"

  /** The reference up to the first digest mark. */
  function NormalizeImage(image: string): string {
    if |image| == 0 || DIGEST_MARK <= image then ""
    else [image[0]] + NormalizeImage(image[1..])
  }

  /** The mark starts with its only '@', so it cannot begin inside the image. */
  lemma NoMarkAcross(image: string, digest: string)
    requires |image| != 0 && !(DIGEST_MARK <= image)
    ensures !(DIGEST_MARK <= image + DIGEST_MARK + digest)
  {
    var full := image + DIGEST_MARK + digest;
    assert forall k | 0 < k < |DIGEST_MARK| :: DIGEST_MARK[k] != '@';
    if |image| < |DIGEST_MARK| {
      assert full[|image|] == '@';
    } else {
      assert image[..|DIGEST_MARK|] == full[..|DIGEST_MARK|];
    }
  }

  /** Docker's resolved digest never makes two references differ. */
  lemma {:induction false} DigestIsIgnored(image: string, digest: string)
    ensures NormalizeImage(image + DIGEST_MARK + digest) == NormalizeImage(image)
  {
    var full := image + DIGEST_MARK + digest;
    if |image| == 0 || DIGEST_MARK <= image {
      MarkedAtStart(image, digest);
    } else {
      NoMarkAcross(image, digest);
      DigestIsIgnored(image[1..], digest);
      assert full[1..] == image[1..] + DIGEST_MARK + digest;
    }
  }

  lemma MarkedAtStart(image: string, digest: string)
    requires |image| == 0 || DIGEST_MARK <= image
    ensures DIGEST_MARK <= image + DIGEST_MARK + digest
  {
    if |image| == 0 {
      assert image + DIGEST_MARK == DIGEST_MARK;
    }
  }

  lemma PrefixTransitive(a: string, b: string, c: string)
    requires b <= c
    ensures a <= b ==> a <= c
  {
    if a <= b {
      assert b == c[..|b|];
    }
  }

  /** Normalising is a projection: it keeps a prefix that has no mark left. */
  lemma {:induction false} NormalizeIsProjection(image: string)
    ensures NormalizeImage(image) <= image
    ensures NormalizeImage(NormalizeImage(image)) == NormalizeImage(image)
  {
    if |image| != 0 && !(DIGEST_MARK <= image) {
      NormalizeIsProjection(image[1..]);
      var short := NormalizeImage(image);
      assert short[1..] == NormalizeImage(image[1..]);
      PrefixTransitive(DIGEST_MARK, short, image);
    }
  }

  /** The reference up to the first "@sha256:", or the whole of it when there is none. */
  lemma {:induction false} NormalizeIsExact(image: string)
    ensures var n := |NormalizeImage(image)|;
      && n <= |image| && NormalizeImage(image) == image[..n]
      && (forall i | 0 <= i < n :: !("@sha256:" <= image[i..]))
      && (n < |image| ==> "@sha256:" <= image[n..])
  {
    if |image| != 0 && !(DIGEST_MARK <= image) {
      NormalizeIsExact(image[1..]);
      var n := |NormalizeImage(image)|;
      assert image[1..][..n - 1] == image[1..n];
      assert forall i | 0 < i <= n :: image[i..] == image[1..][i - 1..];
    }
  }

  lemma UnmarkedIsUnchanged(image: string)
    requires forall i | 0 <= i < |image| :: !("@sha256:" <= image[i..])
    ensures NormalizeImage(image) == image
  {
    NormalizeIsExact(image);
  }
}
