/** Spring Data's Page, as the repositories and controllers use it: the slice of
    a result list that one page request (page number, page size) selects. */
module Paging {

  datatype Page<T> = Page(content: seq<T>, totalElements: nat, totalPages: nat, size: nat, number: nat)
  {
    /** isFirst: there is no previous page. */
    predicate IsFirst() { number == 0 }

    /** hasNext: a page after this one exists. */
    predicate HasNext() { number + 1 < totalPages }

    /** isLast: no page after this one. */
    predicate IsLast() { !HasNext() }

    function NumberOfElements(): nat { |content| }
  }

  function Min(a: int, b: int): int { if a <= b then a else b }

  /** getTotalPages: the number of pages of `size` elements needed for `total`. */
  function TotalPages(total: nat, size: nat): (n: nat)
    requires size >= 1
    ensures total <= n * size < total + size
  {
    var q := (total + size - 1) / size;
    assert total + size - 1 == q * size + (total + size - 1) % size;
    q
  }

  /** The page `number` of `all`, pages of `size` elements (`PageRequest.of`
      refuses a size below 1). */
  function PageOf<T>(all: seq<T>, number: nat, size: nat): (p: Page<T>)
    requires size >= 1
    ensures p.totalElements == |all| && p.totalPages == TotalPages(|all|, size)
    ensures p.number == number && p.size == size
    ensures |p.content| <= size
    ensures number * size >= |all| ==> p.content == []
    ensures number * size < |all| ==> |p.content| == Min(size, |all| - number * size)
    ensures forall i :: 0 <= i < |p.content| ==>
              number * size + i < |all| && p.content[i] == all[number * size + i]
  {
    var start := number * size;
    var content := if start >= |all| then [] else all[start..Min(start + size, |all|)];
    Page(content, |all|, TotalPages(|all|, size), size, number)
  }

  /** Page.map: the same page with every element converted. */
  function MapPage<T, U>(p: Page<T>, f: T -> U): (q: Page<U>)
    ensures q.totalElements == p.totalElements && q.totalPages == p.totalPages
    ensures q.number == p.number && q.size == p.size
    ensures |q.content| == |p.content| && forall i :: 0 <= i < |q.content| ==> q.content[i] == f(p.content[i])
  {
    Page(seq(|p.content|, i requires 0 <= i < |p.content| => f(p.content[i])),
         p.totalElements, p.totalPages, p.size, p.number)
  }

  /** Every element sits on page i / size, at position i % size. */
  lemma ElementOnItsPage<T>(all: seq<T>, size: nat, i: nat)
    requires size >= 1 && i < |all|
    ensures i % size < |PageOf(all, i / size, size).content|
    ensures PageOf(all, i / size, size).content[i % size] == all[i]
  {
    assert (i / size) * size + i % size == i;
  }

  /** A page within range is the last one exactly when it reaches the end of the list. */
  lemma LastPageReachesEnd<T>(all: seq<T>, number: nat, size: nat)
    requires size >= 1 && number < TotalPages(|all|, size)
    ensures PageOf(all, number, size).IsLast() <==>
              number * size + |PageOf(all, number, size).content| == |all|
  {
    var n := TotalPages(|all|, size);
    var start := number * size;
    var lastStart := (n - 1) * size;
    MulStep(n - 1, size);
    MulMonotone(number, n - 1, size);
    assert start <= lastStart < |all|;
    if number + 1 < n {
      MulStep(number, size);
      MulMonotone(number + 1, n - 1, size);
      assert start + size <= lastStart;
    } else {
      assert start == lastStart;
    }
  }

  lemma MulMonotone(a: nat, b: nat, c: nat)
    requires a <= b
    ensures a * c <= b * c
  {
  }

  lemma MulStep(a: nat, c: nat)
    ensures (a + 1) * c == a * c + c
  {
  }
}
