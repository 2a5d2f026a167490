/**
 * The CodeType typing game: a code snippet of the chosen language is shown,
 * the player types it into a text area, mistakes are counted as they are
 * typed, and the game is complete once the text equals the snippet. The
 * React state of the component is the class `Game`; `resetGame` and
 * `handleInputChange` are its methods, `calculateAccuracy` and
 * `getCharacterClass` read it.
 */
module CodeType {
  import opened Js

  datatype Language = JavaScript | Python | Java | Cpp | TypeScript | Rust | Go

  /** The snippets of `CODE_SNIPPETS`, language by language. */
  const JavaScriptSnippets: seq<string> := [
    "const fibonacci = (n) => {\n  if (n <= 1) return n;\n  return fibonacci(n - 1) + fibonacci(n - 2);\n};",
    "function mergeSort(arr) {\n  if (arr.length <= 1) return arr;\n  const mid = Math.floor(arr.length / 2);\n  const left = mergeSort(arr.slice(0, mid));\n  const right = mergeSort(arr.slice(mid));\n  return merge(left, right);\n}",
    "const debounce = (func, delay) => {\n  let timeoutId;\n  return (...args) => {\n    clearTimeout(timeoutId);\n    timeoutId = setTimeout(() => func(...args), delay);\n  };\n};"
  ]

  const PythonSnippets: seq<string> := [
    "def binary_search(arr, target):\n    left, right = 0, len(arr) - 1\n    while left <= right:\n        mid = (left + right) // 2\n        if arr[mid] == target:\n            return mid\n        elif arr[mid] < target:\n            left = mid + 1\n        else:\n            right = mid - 1\n    return -1",
    "class TreeNode:\n    def __init__(self, val=0, left=None, right=None):\n        self.val = val\n        self.left = left\n        self.right = right\n    \n    def inorder(self, root):\n        return self.inorder(root.left) + [root.val] + self.inorder(root.right) if root else []",
    "def quicksort(arr):\n    if len(arr) <= 1:\n        return arr\n    pivot = arr[len(arr) // 2]\n    left = [x for x in arr if x < pivot]\n    middle = [x for x in arr if x == pivot]\n    right = [x for x in arr if x > pivot]\n    return quicksort(left) + middle + quicksort(right)"
  ]

  const JavaSnippets: seq<string> := [
    "public class BinaryTree {\n    class Node {\n        int data;\n        Node left, right;\n        Node(int item) {\n            data = item;\n            left = right = null;\n        }\n    }\n    Node root;\n}",
    "public int factorial(int n) {\n    if (n == 0 || n == 1) {\n        return 1;\n    }\n    return n * factorial(n - 1);\n}",
    "public void bubbleSort(int[] arr) {\n    int n = arr.length;\n    for (int i = 0; i < n - 1; i++) {\n        for (int j = 0; j < n - i - 1; j++) {\n            if (arr[j] > arr[j + 1]) {\n                int temp = arr[j];\n                arr[j] = arr[j + 1];\n                arr[j + 1] = temp;\n            }\n        }\n    }\n}"
  ]

  const CppSnippets: seq<string> := [
    "template <typename T>\nclass Stack {\nprivate:\n    vector<T> elements;\npublic:\n    void push(T const& elem) {\n        elements.push_back(elem);\n    }\n    T pop() {\n        T elem = elements.back();\n        elements.pop_back();\n        return elem;\n    }\n};",
    "int binarySearch(vector<int>& arr, int target) {\n    int left = 0, right = arr.size() - 1;\n    while (left <= right) {\n        int mid = left + (right - left) / 2;\n        if (arr[mid] == target) return mid;\n        if (arr[mid] < target) left = mid + 1;\n        else right = mid - 1;\n    }\n    return -1;\n}",
    "void quickSort(int arr[], int low, int high) {\n    if (low < high) {\n        int pi = partition(arr, low, high);\n        quickSort(arr, low, pi - 1);\n        quickSort(arr, pi + 1, high);\n    }\n}"
  ]

  const TypeScriptSnippets: seq<string> := [
    "interface User {\n  id: number;\n  name: string;\n  email: string;\n}\n\nfunction getUser(id: number): Promise<User> {\n  return fetch(\'/api/onboarding/profile\')\n    .then(res => res.json())\n    .then((data: { profile?: { id?: number; display_name?: string } }) =>\n      data.profile ? { id: data.profile.id ?? id, name: data.profile.display_name ?? \'\', email: \'\' } : { id, name: \'\', email: \'\' }\n    );\n}",
    "type Status = \'pending\' | \'active\' | \'completed\';\n\nclass Task<T> {\n  private status: Status = \'pending\';\n  constructor(public data: T) {}\n  \n  complete(): void {\n    this.status = \'completed\';\n  }\n}",
    "function genericMap<T, U>(arr: T[], fn: (item: T) => U): U[] {\n  return arr.map(fn);\n}\n\nconst result = genericMap([1, 2, 3], x => x.toString());"
  ]

  const RustSnippets: seq<string> := [
    "fn fibonacci(n: u32) -> u32 {\n    match n {\n        0 => 0,\n        1 => 1,\n        _ => fibonacci(n - 1) + fibonacci(n - 2),\n    }\n}",
    "struct Point {\n    x: i32,\n    y: i32,\n}\n\nimpl Point {\n    fn new(x: i32, y: i32) -> Self {\n        Point { x, y }\n    }\n    \n    fn distance(&self, other: &Point) -> f64 {\n        let dx = (self.x - other.x) as f64;\n        let dy = (self.y - other.y) as f64;\n        (dx * dx + dy * dy).sqrt()\n    }\n}",
    "fn binary_search(arr: &[i32], target: i32) -> Option<usize> {\n    let mut left = 0;\n    let mut right = arr.len();\n    \n    while left < right {\n        let mid = (left + right) / 2;\n        match arr[mid].cmp(&target) {\n            std::cmp::Ordering::Equal => return Some(mid),\n            std::cmp::Ordering::Less => left = mid + 1,\n            std::cmp::Ordering::Greater => right = mid,\n        }\n    }\n    None\n}"
  ]

  const GoSnippets: seq<string> := [
    "func fibonacci(n int) int {\n    if n <= 1 {\n        return n\n    }\n    return fibonacci(n-1) + fibonacci(n-2)\n}",
    "type TreeNode struct {\n    Val   int\n    Left  *TreeNode\n    Right *TreeNode\n}\n\nfunc inorderTraversal(root *TreeNode) []int {\n    if root == nil {\n        return []int{}\n    }\n    result := inorderTraversal(root.Left)\n    result = append(result, root.Val)\n    result = append(result, inorderTraversal(root.Right)...)\n    return result\n}",
    "func binarySearch(arr []int, target int) int {\n    left, right := 0, len(arr)-1\n    for left <= right {\n        mid := (left + right) / 2\n        if arr[mid] == target {\n            return mid\n        } else if arr[mid] < target {\n            left = mid + 1\n        } else {\n            right = mid - 1\n        }\n    }\n    return -1\n}"
  ]

  /** `CODE_SNIPPETS[language]`: three snippets per language, none of them empty. */
  function Snippets(lang: Language): (r: seq<string>)
    ensures |r| == 3
    ensures forall i :: 0 <= i < |r| ==> |r[i]| > 0
  {
    match lang
    case JavaScript => JavaScriptSnippets
    case Python => PythonSnippets
    case Java => JavaSnippets
    case Cpp => CppSnippets
    case TypeScript => TypeScriptSnippets
    case Rust => RustSnippets
    case Go => GoSnippets
  }

  /** Whether a change of the text area counts a mistake: it made the text longer, and its last character is not the snippet's character at that place (or lies beyond the end of the snippet). */
  predicate MistypedLast(snippet: string, previous: string, value: string) {
    |value| > |previous| && (|value| > |snippet| || value[|value| - 1] != snippet[|value| - 1])
  }

  /** The part of the game state that typing changes. Times are milliseconds; `None` is `null`. */
  datatype Play = Play(
    userInput: string,
    startTime: Option<int>,
    endTime: Option<int>,
    isComplete: bool,
    currentIndex: int,
    errors: int)

  /** The state `resetGame` leaves. */
  const Fresh := Play("", None, None, false, 0, 0)

  /** The state after the text area changes to `value` at time `now`. */
  function Step(snippet: string, s: Play, value: string, now: int): Play {
    Play(
      value,
      if s.startTime.None? then Some(now) else s.startTime,
      if value == snippet then Some(now) else s.endTime,
      if value == snippet then true else s.isComplete,
      |value|,
      s.errors + (if MistypedLast(snippet, s.userInput, value) then 1 else 0))
  }

  /** What holds between changes of a game still in progress or just completed. */
  predicate Consistent(snippet: string, s: Play) {
    && s.currentIndex == |s.userInput|
    && 0 <= s.errors
    && (s.isComplete <==> s.userInput == snippet)
    && (s.isComplete <==> s.endTime.Some?)
    && (s.isComplete ==> s.startTime.Some?)
    && (s.startTime.None? ==> s.userInput == "" && s.errors == 0)
  }

  lemma FreshIsConsistent(snippet: string)
    requires snippet != ""
    ensures Consistent(snippet, Fresh)
  {
  }

  /** A change of a game in progress keeps the state consistent. */
  lemma StepKeepsConsistent(snippet: string, s: Play, value: string, now: int)
    requires Consistent(snippet, s) && !s.isComplete
    ensures Consistent(snippet, Step(snippet, s, value, now))
  {
  }

  /**
   * The error counter goes up by one exactly when the text grew and its
   * last character is wrong, and otherwise stays: deleting or replacing
   * text never counts, and a paste of several characters counts once at most.
   */
  lemma StepErrors(snippet: string, s: Play, value: string, now: int)
    ensures var t := Step(snippet, s, value, now);
            && s.errors <= t.errors <= s.errors + 1
            && (t.errors == s.errors + 1 <==> |value| > |s.userInput| && (|value| > |snippet| || value[|value| - 1] != snippet[|value| - 1]))
            && (|value| <= |s.userInput| ==> t.errors == s.errors)
  {
  }

  /**
   * After a change the cursor is at the end of the text, the start time is
   * the one already set or else now, and the game is complete exactly when
   * the text equals the snippet (or it was complete already).
   */
  lemma StepPosition(snippet: string, s: Play, value: string, now: int)
    ensures var t := Step(snippet, s, value, now);
            && t.userInput == value && t.currentIndex == |value|
            && (s.startTime.Some? ==> t.startTime == s.startTime)
            && (s.startTime.None? ==> t.startTime == Some(now))
            && (t.isComplete <==> value == snippet || s.isComplete)
            && (value == snippet ==> t.endTime == Some(now))
  {
  }

  /** The successive texts when the snippet is typed one correct character at a time. */
  function Prefixes(snippet: string, k: nat): (r: seq<string>)
    requires k <= |snippet|
    ensures |r| == k
    ensures forall i :: 0 <= i < k ==> r[i] == snippet[..i + 1]
  {
    if k == 0 then [] else Prefixes(snippet, k - 1) + [snippet[..k]]
  }

  /** The state after a sequence of changes, all at time `now`. */
  function Steps(snippet: string, s: Play, values: seq<string>, now: int): Play {
    if values == [] then s
    else Step(snippet, Steps(snippet, s, values[..|values| - 1], now), values[|values| - 1], now)
  }

  /**
   * Typing the first `k` characters of the snippet without a mistake makes
   * no error; the game is complete exactly when the whole snippet is typed.
   */
  lemma {:induction false} TypingCorrectlyMakesNoErrors(snippet: string, k: nat, now: int)
    requires 0 < |snippet| && k <= |snippet|
    ensures var t := Steps(snippet, Fresh, Prefixes(snippet, k), now);
            && t.userInput == snippet[..k] && t.currentIndex == k && t.errors == 0
            && (t.isComplete <==> k == |snippet|)
            && (k > 0 ==> t.startTime == Some(now))
  {
    var values := Prefixes(snippet, k);
    if k > 0 {
      TypingCorrectlyMakesNoErrors(snippet, k - 1, now);
      assert snippet[..|snippet|] == snippet;
      assert values[..k - 1] == Prefixes(snippet, k - 1);
      var s := Steps(snippet, Fresh, values[..k - 1], now);
      assert snippet[..k][k - 1] == snippet[k - 1];
      assert !MistypedLast(snippet, s.userInput, snippet[..k]);
      if k < |snippet| {
        assert snippet[..k] != snippet by {
          assert |snippet[..k]| < |snippet|;
        }
      }
    }
  }

  /**
   * `Math.round(x)` of `x = (length - errors) / length * 100`, computed
   * exactly: the integer nearest to `x`, halves rounded up.
   */
  function Accuracy(snippetLength: int, inputLength: int, errors: int): (r: int)
    requires snippetLength > 0
    ensures inputLength == 0 ==> r == 100
    ensures inputLength != 0 ==>
              2 * snippetLength * r - snippetLength <= 200 * (snippetLength - errors) < 2 * snippetLength * r + snippetLength
  {
    if inputLength == 0 then 100
    else (200 * (snippetLength - errors) + snippetLength) / (2 * snippetLength)
  }

  /**
   * Accuracy is 100 while no mistake has been counted, never above 100,
   * falls as errors grow, and becomes negative exactly when the errors
   * exceed the snippet length by more than half a percent of it.
   */
  lemma AccuracyBounds(n: int, inputLength: int, errors: int, errors': int)
    requires n > 0 && inputLength != 0
    ensures errors == 0 ==> Accuracy(n, inputLength, errors) == 100
    ensures errors >= 0 ==> Accuracy(n, inputLength, errors) <= 100
    ensures errors <= n ==> Accuracy(n, inputLength, errors) >= 0
    ensures Accuracy(n, inputLength, errors) < 0 <==> 200 * (errors - n) > n
    ensures errors <= errors' ==> Accuracy(n, inputLength, errors') <= Accuracy(n, inputLength, errors)
  {
    var a, a' := Accuracy(n, inputLength, errors), Accuracy(n, inputLength, errors');
    ScaleMonotone(n, 100, a);
    ScaleMonotone(n, a, 0);
    ScaleMonotone(n, -1, a);
    ScaleMonotone(n, a, a');
    if errors == 0 {
      AccuracyUnique(n, 200 * n, a, 100);
    }
  }

  /** Scaling by the positive `2n` keeps a gap of at least one between integers. */
  lemma ScaleMonotone(n: int, a: int, b: int)
    requires n > 0
    ensures a < b ==> 2 * n * a + 2 * n <= 2 * n * b
  {
    if a < b {
      var m, d := 2 * n, b - a - 1;
      assert m * d >= 0;
      assert m * b == m * a + m + m * d by {
        assert b == a + 1 + d;
      }
    }
  }

  /** At most one integer `a` has `x` within `n` of `2n * a`, from below inclusive and above exclusive. */
  lemma AccuracyUnique(n: int, x: int, a: int, b: int)
    requires n > 0
    requires 2 * n * a - n <= x < 2 * n * a + n
    requires 2 * n * b - n <= x < 2 * n * b + n
    ensures a == b
  {
    ScaleMonotone(n, a, b);
    ScaleMonotone(n, b, a);
  }

  /** How `getCharacterClass` shows a character of the snippet. */
  datatype CharClass = Correct | Wrong | Cursor | Pending

  /**
   * Characters before the cursor are correct or wrong as the typed text
   * matches the snippet there, the one at the cursor is the cursor, and
   * later ones are pending.
   */
  function ClassAt(snippet: string, userInput: string, currentIndex: int, index: nat): (c: CharClass)
    requires currentIndex == |userInput|
    ensures c == Correct <==> index < currentIndex && index < |snippet| && userInput[index] == snippet[index]
    ensures c == Wrong <==> index < currentIndex && (index >= |snippet| || userInput[index] != snippet[index])
    ensures c == Cursor <==> index == currentIndex
    ensures c == Pending <==> index > currentIndex
  {
    if index < currentIndex then
      (if index < |snippet| && userInput[index] == snippet[index] then Correct else Wrong)
    else if index == currentIndex then Cursor
    else Pending
  }

  /** While the typed text is a prefix of the snippet nothing is shown wrong; once complete, every character is correct. */
  lemma PrefixShowsNoWrong(snippet: string, userInput: string, index: nat)
    requires userInput <= snippet
    ensures ClassAt(snippet, userInput, |userInput|, index) != Wrong
    ensures userInput == snippet && index < |snippet| ==> ClassAt(snippet, userInput, |userInput|, index) == Correct
  {
  }

  class Game {
    var language: Language
    var codeSnippet: string
    var userInput: string
    var startTime: Option<int>
    var endTime: Option<int>
    var isComplete: bool
    var currentIndex: int
    var errors: int

    /** The typing state as a value. */
    function State(): Play
      reads this
    {
      Play(userInput, startTime, endTime, isComplete, currentIndex, errors)
    }

    ghost predicate Valid()
      reads this
    {
      && codeSnippet in Snippets(language)
      && codeSnippet != ""
      && Consistent(codeSnippet, State())
    }

    /** Mounting the component: JavaScript is chosen and the language effect resets the game. */
    constructor (choice: nat)
      requires choice < 3
      ensures Valid()
      ensures language == JavaScript && codeSnippet == Snippets(JavaScript)[choice] && State() == Fresh
    {
      language := JavaScript;
      codeSnippet := Snippets(JavaScript)[choice];
      userInput := "";
      startTime := None;
      endTime := None;
      isComplete := false;
      currentIndex := 0;
      errors := 0;
    }

    /**
     * `resetGame`: `choice` is `Math.floor(Math.random() * 3)`; a snippet of
     * the current language is picked and everything else starts over.
     */
    method ResetGame(choice: nat)
      requires choice < |Snippets(language)|
      modifies this
      ensures Valid()
      ensures language == old(language) && codeSnippet == Snippets(language)[choice]
      ensures State() == Fresh
    {
      codeSnippet := Snippets(language)[choice];
      userInput := "";
      startTime := None;
      endTime := None;
      isComplete := false;
      currentIndex := 0;
      errors := 0;
    }

    /**
     * Choosing a language from the menu. The language effect resets the game
     * only when the language actually changes: setting the state to the
     * language already chosen does not run the effect again.
     */
    method SelectLanguage(lang: Language, choice: nat)
      requires Valid() && choice < 3
      modifies this
      ensures Valid() && language == lang
      ensures lang == old(language) ==> codeSnippet == old(codeSnippet) && State() == old(State())
      ensures lang != old(language) ==> codeSnippet == Snippets(lang)[choice] && State() == Fresh
    {
      if lang != language {
        language := lang;
        ResetGame(choice);
      }
    }

    /**
     * `handleInputChange`: the text area now holds `value`, at time `now`.
     * A completed game cannot change: its text area is disabled.
     */
    method HandleInputChange(value: string, now: int)
      requires Valid() && !isComplete
      modifies this
      ensures Valid()
      ensures language == old(language) && codeSnippet == old(codeSnippet)
      ensures State() == Step(codeSnippet, old(State()), value, now)
    {
      StepKeepsConsistent(codeSnippet, State(), value, now);
      if startTime.None? {
        startTime := Some(now);
      }
      if |value| > |userInput| {
        var newChar := value[|value| - 1];
        if |value| > |codeSnippet| || newChar != codeSnippet[|value| - 1] {
          errors := errors + 1;
        }
      }
      userInput := value;
      currentIndex := |value|;
      if value == codeSnippet {
        endTime := Some(now);
        isComplete := true;
      }
    }

    /** `calculateAccuracy` */
    function CalculateAccuracy(): (r: int)
      reads this
      requires Valid()
      ensures userInput == "" ==> r == 100
      ensures isComplete && errors == 0 ==> r == 100
    {
      if userInput == "" then Accuracy(|codeSnippet|, 0, errors)
      else
        AccuracyBounds(|codeSnippet|, |userInput|, errors, errors);
        Accuracy(|codeSnippet|, |userInput|, errors)
    }

    /** `getCharacterClass` */
    function GetCharacterClass(index: nat): (c: CharClass)
      reads this
      requires Valid()
      ensures isComplete && index < |codeSnippet| ==> c == Correct
      ensures c == Cursor <==> index == |userInput|
    {
      ClassAt(codeSnippet, userInput, currentIndex, index)
    }
  }
}
