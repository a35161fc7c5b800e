/**
 * The two fixed scripts of the demo, `demonstrateStack` and
 * `demonstrateBinarySearch`. Each returns the values the demo prints,
 * so their contracts pin down what the narration shows.
 */
module Demos {
  import opened Wrappers
  import opened Stacks
  import opened Search

  /**
   * Pushes "First", "Second", "Third" onto a new stack, peeks, pops twice and
   * asks whether the stack is empty.
   */
  method DemonstrateStack() returns (top: Option<string>, popped: seq<Option<string>>, empty: bool, left: seq<string>)
    ensures top == Some("Third")
    ensures popped == [Some("Third"), Some("Second")]
    ensures !empty && left == ["First"]
  {
    var stack := new Stack<string>();
    stack.Push("First");
    stack.Push("Second");
    stack.Push("Third");
    top := stack.Peek();
    var first := stack.Pop();
    var second := stack.Pop();
    popped := [first, second];
    empty := stack.IsEmpty();
    left := stack.items;
  }

  /** Searches the fixed ten-element array for 23, 5 and 30. */
  method DemonstrateBinarySearch() returns (at23: int, at5: int, at30: int)
    ensures at23 == 5 && at5 == 1 && at30 == -1
  {
    var sortedArray := new int[] [2, 5, 8, 12, 16, 23, 38, 45, 67, 78];
    assert sortedArray[..] == [2, 5, 8, 12, 16, 23, 38, 45, 67, 78];
    assert sortedArray[..][5] == 23 && sortedArray[..][1] == 5;
    at23 := BinarySearch(sortedArray, 23);
    at5 := BinarySearch(sortedArray, 5);
    at30 := BinarySearch(sortedArray, 30);
  }
}
