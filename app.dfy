/** `WebScraperApp`: the state the window's buttons act on, the guards of
    "Choose Elements" and "Start Scraping", the selector confirmation, and the
    worker's loop. Widgets, the lock and the thread itself are not modelled:
    the calls run one after another, the worker as a separate method. */
module App {
  import opened Text
  import opened Selectors
  import opened Scrape

  datatype Option<T> = None | Some(value: T)

  /** The worker `start_scraping` launches, with the URL it fetches. */
  datatype Worker = Worker(url: string)

  const BusyChoosingMessage := "Scraping is in progress. Please wait or cancel the process."
  const AlreadyScrapingMessage := "Scraping is already in progress."
  const MissingUrlMessage := "Please enter a valid URL."
  const MissingSelectorsMessage := "Please choose elements for scraping."
  const MissingSavePathMessage := "Please choose a valid save path."

  /** Every guard of `start_scraping` passes. */
  predicate MayStart(scraping: bool, url: string, selectors: seq<string>, savePath: string) {
    !scraping && url != [] && selectors != [] && savePath != []
  }

  /** The message of the first guard of `start_scraping` that fails, checked
      in the order the handler checks them; none when all of them pass. */
  function Refusal(scraping: bool, url: string, selectors: seq<string>, savePath: string): (r: Option<string>)
    ensures r == None <==> MayStart(scraping, url, selectors, savePath)
    ensures r.Some? ==> r.value in {AlreadyScrapingMessage, MissingUrlMessage, MissingSelectorsMessage, MissingSavePathMessage}
    ensures scraping ==> r == Some(AlreadyScrapingMessage)
  {
    if scraping then Some(AlreadyScrapingMessage)
    else if url == [] then Some(MissingUrlMessage)
    else if selectors == [] then Some(MissingSelectorsMessage)
    else if savePath == [] then Some(MissingSavePathMessage)
    else None
  }

  /** The refusal tells which guard failed: no two guards share a message,
      and none of them is the message of "Choose Elements". */
  lemma RefusalIdentifiesGuard(scraping: bool, url: string, selectors: seq<string>, savePath: string)
    ensures Refusal(scraping, url, selectors, savePath) == Some(AlreadyScrapingMessage) <==> scraping
    ensures Refusal(scraping, url, selectors, savePath) == Some(MissingUrlMessage) <==> !scraping && url == []
    ensures (Refusal(scraping, url, selectors, savePath) == Some(MissingSelectorsMessage))
              <==> (!scraping && url != [] && selectors == [])
    ensures (Refusal(scraping, url, selectors, savePath) == Some(MissingSavePathMessage))
              <==> (!scraping && url != [] && selectors != [] && savePath == [])
    ensures Refusal(scraping, url, selectors, savePath) != Some(BusyChoosingMessage)
  {
    MessagesDistinct();
  }

  /** The five messages of the two handlers are pairwise different. */
  lemma MessagesDistinct()
    ensures BusyChoosingMessage != AlreadyScrapingMessage && BusyChoosingMessage != MissingUrlMessage
    ensures BusyChoosingMessage != MissingSelectorsMessage && BusyChoosingMessage != MissingSavePathMessage
    ensures AlreadyScrapingMessage != MissingUrlMessage && AlreadyScrapingMessage != MissingSelectorsMessage
    ensures AlreadyScrapingMessage != MissingSavePathMessage
    ensures MissingUrlMessage != MissingSelectorsMessage && MissingUrlMessage != MissingSavePathMessage
    ensures MissingSelectorsMessage != MissingSavePathMessage
  {
    assert |BusyChoosingMessage| == 59 && |AlreadyScrapingMessage| == 32 && |MissingUrlMessage| == 25;
    assert |MissingSelectorsMessage| == 36 && |MissingSavePathMessage| == 32;
    assert AlreadyScrapingMessage[0] == 'S' && MissingSavePathMessage[0] == 'P';
  }

  class WebScraperApp {
    var savePath: string
    var selectedElements: seq<string>
    var isChoosingElements: bool
    var isScraping: bool
    var scrapingThread: Option<Worker>
    /** How many workers have been started so far. */
    ghost var workersStarted: nat
    /** The entries of the log list box, oldest first. */
    var log: seq<string>
    /** The text files on disk, by path, as the lines written to them. */
    var files: map<string, seq<string>>

    /** `__init__`: nothing chosen, nothing running, an empty log. */
    constructor (disk: map<string, seq<string>>)
      ensures savePath == [] && selectedElements == []
      ensures !isChoosingElements && !isScraping
      ensures scrapingThread == None && workersStarted == 0
      ensures log == [] && files == disk
    {
      savePath := "";
      selectedElements := [];
      isChoosingElements := false;
      isScraping := false;
      scrapingThread := None;
      workersStarted := 0;
      log := [];
      files := disk;
    }

    /** `log`: appends one entry to the list box. */
    method Log(message: string)
      modifies this`log
      ensures log == old(log) + [message]
    {
      log := log + [message];
    }

    /** `choose_elements`: refused while a scrape runs; otherwise marks the
        selection as pending (the window it opens is not modelled). */
    method ChooseElements()
      modifies this`log, this`isChoosingElements
      ensures old(isScraping) ==>
                log == old(log) + [BusyChoosingMessage] && isChoosingElements == old(isChoosingElements)
      ensures !old(isScraping) ==> log == old(log) && isChoosingElements
    {
      if isScraping {
        Log(BusyChoosingMessage);
        return;
      }
      isChoosingElements := true;
    }

    /** `confirm_selection`: the typed text replaces the selector list as a
        whole, and the new list is logged. It takes no lock and checks no flag,
        and it leaves `isChoosingElements` set. */
    method ConfirmSelection(text: string)
      modifies this`selectedElements, this`log
      ensures selectedElements == Normalise(text)
      ensures forall i :: 0 <= i < |selectedElements| ==> IsSelector(selectedElements[i])
      ensures log == old(log) + [SelectionMessage(selectedElements)]
    {
      selectedElements := Normalise(text);
      Log(SelectionMessage(selectedElements));
    }

    /** `start_scraping`, where `chosenPath` is what the save dialog answers
        if it is opened. The guards are checked in order (already scraping,
        empty URL, no selectors, empty path); the first that fails logs its
        own message and nothing starts. The dialog is only opened once the
        first three pass, and its answer is stored even when empty. */
    method StartScraping(url: string, chosenPath: string)
      modifies this`log, this`savePath, this`isScraping, this`scrapingThread, this`workersStarted
      ensures old(isScraping) ==>
                log == old(log) + [AlreadyScrapingMessage] && savePath == old(savePath)
      ensures !old(isScraping) && url == [] ==>
                log == old(log) + [MissingUrlMessage] && savePath == old(savePath)
      ensures !old(isScraping) && url != [] && selectedElements == [] ==>
                log == old(log) + [MissingSelectorsMessage] && savePath == old(savePath)
      ensures !old(isScraping) && url != [] && selectedElements != [] ==> savePath == chosenPath
      ensures !old(isScraping) && url != [] && selectedElements != [] && chosenPath == [] ==>
                log == old(log) + [MissingSavePathMessage]
      ensures MayStart(old(isScraping), url, selectedElements, chosenPath) ==>
                log == old(log) && isScraping
                && scrapingThread == Some(Worker(url)) && workersStarted == old(workersStarted) + 1
      ensures !MayStart(old(isScraping), url, selectedElements, chosenPath) ==>
                log == old(log) + [Refusal(old(isScraping), url, selectedElements, chosenPath).value]
      ensures !MayStart(old(isScraping), url, selectedElements, chosenPath) ==>
                isScraping == old(isScraping)
                && scrapingThread == old(scrapingThread) && workersStarted == old(workersStarted)
    {
      if isScraping {
        Log(AlreadyScrapingMessage);
        return;
      }
      if url == "" {
        Log(MissingUrlMessage);
        return;
      }
      if selectedElements == [] {
        Log(MissingSelectorsMessage);
        return;
      }
      savePath := chosenPath;
      if savePath == "" {
        Log(MissingSavePathMessage);
        return;
      }
      isScraping := true;
      scrapingThread := Some(Worker(url));
      workersStarted := workersStarted + 1;
    }

    /** Two start requests with no finished scrape between them start at most
        one worker, and the second of them is refused if the first started. */
    method StartTwice(url: string, chosenPath: string, url2: string, chosenPath2: string)
      modifies this`log, this`savePath, this`isScraping, this`scrapingThread, this`workersStarted
      ensures workersStarted <= old(workersStarted) + 1
      ensures MayStart(old(isScraping), url, selectedElements, chosenPath) ==>
                log == old(log) + [AlreadyScrapingMessage] && scrapingThread == Some(Worker(url))
    {
      StartScraping(url, chosenPath);
      StartScraping(url2, chosenPath2);
    }

    /** `scrape_website`, where `fetches[i]` is what the `i`-th
        `requests.get(url)` gives and `render` stands for the HTML parser. The
        file at `savePath` is truncated and, once closed, holds exactly the
        lines of `Run`; the log gains exactly its entries; the busy flag is
        cleared however the loop ends. */
    method ScrapeWebsite(fetches: seq<Fetch>, render: Renderer)
      requires |fetches| == Iterations
      modifies this`log, this`files, this`isScraping
      ensures !isScraping
      ensures files == old(files)[savePath := Run(fetches, selectedElements, render).file]
      ensures log == old(log) + Run(fetches, selectedElements, render).log
    {
      var written := FetchAll(fetches, render);
      files := files[savePath := written];
      isScraping := false;
    }

    /** The `with open(...)` block of `scrape_website`: up to 100 fetches,
        stopped by the first exception, which is logged. Returns the lines
        written to the file before it is closed. */
    method FetchAll(fetches: seq<Fetch>, render: Renderer) returns (written: seq<string>)
      requires |fetches| == Iterations
      modifies this`log
      ensures written == Run(fetches, selectedElements, render).file
      ensures log == old(log) + Run(fetches, selectedElements, render).log
    {
      written := [];
      var i := 0;
      while i < Iterations
        invariant 0 <= i <= Iterations
        invariant Completes(fetches[..i])
        invariant written == Run(fetches[..i], selectedElements, render).file
        invariant log == old(log) + Run(fetches[..i], selectedElements, render).log
      {
        var fetch := fetches[i];
        if fetch.Raised? {
          Log(FailureLine(fetch.message));
          RunStopsAtRaise(fetches, selectedElements, render, i);
          ConcatAssoc(old(log), Run(fetches[..i], selectedElements, render).log, [FailureLine(fetch.message)]);
          return;
        }
        var lines := FetchOnce(fetch, render);
        written := written + lines;
        NextIteration(fetches, i, selectedElements, render);
        ConcatAssoc(old(log), Run(fetches[..i], selectedElements, render).log, Step(fetch, selectedElements, render).log);
        i := i + 1;
      }
      assert fetches[..i] == fetches;
    }

    /** One iteration of `scrape_website` whose fetch did not raise: a 200
        response goes through the selectors, any other status is logged.
        Returns the lines written to the file. */
    method FetchOnce(fetch: Fetch, render: Renderer) returns (lines: seq<string>)
      requires fetch.Reply?
      modifies this`log
      ensures lines == Step(fetch, selectedElements, render).file
      ensures log == old(log) + Step(fetch, selectedElements, render).log
    {
      if fetch.status == StatusOk {
        lines := WriteSelected(fetch.body, render);
      } else {
        Log(StatusLine(fetch.status));
        lines := [];
      }
    }

    /** The inner loop of `scrape_website` for one 200 response: each selector,
        in order, adds its line to the file and to the log. */
    method WriteSelected(body: string, render: Renderer) returns (lines: seq<string>)
      modifies this`log
      ensures lines == SelectorLines(body, selectedElements, render)
      ensures log == old(log) + lines
    {
      lines := [];
      var j := 0;
      while j < |selectedElements|
        invariant 0 <= j <= |selectedElements|
        invariant lines == SelectorLines(body, selectedElements[..j], render)
        invariant log == old(log) + lines
      {
        var element := selectedElements[j];
        var line := DataLine(element, render(body, element));
        assert SelectorLines(body, selectedElements[..j + 1], render) == lines + [line];
        lines := lines + [line];
        Log(line);
        j := j + 1;
      }
      assert selectedElements[..j] == selectedElements;
    }
  }
}
